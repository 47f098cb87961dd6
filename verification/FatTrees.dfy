/** How allocating, growing, linking and removing change the tree a FAT32 volume holds. */
module FatTrees {
  import opened FatModel
  import opened FatDirs

  // ---------- clusters nobody owns ----------

  lemma {:induction false} ContentFrame(data: seq<Bytes>, data': seq<Bytes>, ch: Chain)
    requires |data'| == |data| && forall c :: c in ch && c < |data| ==> data'[c] == data[c]
    ensures Content(data', ch) == Content(data, ch)
  {
    if ch != [] {
      assert ch[0] in ch && forall c :: c in ch[1..] ==> c in ch;
      ContentFrame(data, data', ch[1..]);
    }
  }

  ghost predicate Agree(fat: Fat, data: seq<Bytes>, fat': Fat, data': seq<Bytes>, t: Tree) {
    && |fat'| == |fat| && |data| == |fat| && |data'| == |fat|
    && forall c: nat :: c in t.o.owner && c < |fat| ==> fat'[c] == fat[c] && data'[c] == data[c]
  }

  lemma SlotsAgree(fat: Fat, data: seq<Bytes>, fat': Fat, data': seq<Bytes>, t: Tree, d: nat, p: Pos)
    requires ObjectsOk(fat, t.o) && Agree(fat, data, fat', data', t) && d in t.o.chains
    ensures SlotAt(data', t.o.chains[d], p) == SlotAt(data, t.o.chains[d], p)
  {
    assert ObjectAt(fat, t.o, d);
    if p.i < |t.o.chains[d]| {
      assert t.o.chains[d][p.i] in t.o.chains[d];
    }
  }

  /** Clusters outside every object may change freely. */
  lemma Frame(fat: Fat, data: seq<Bytes>, n: nat, t: Tree, fat': Fat, data': seq<Bytes>)
    requires Good(fat, data, n, t) && Agree(fat, data, fat', data', t) && WellSized(data', n)
    ensures Good(fat', data', n, t)
  {
    ObjectsFrame(fat, fat', t.o);
    forall d: nat, p: Pos ensures SlotOk(data', n, t, d, p) {
      assert SlotOk(data, n, t, d, p);
      if d in t.o.chains {
        SlotsAgree(fat, data, fat', data', t, d, p);
      }
    }
  }

  lemma NodesAgree(fat: Fat, data: seq<Bytes>, fat': Fat, data': seq<Bytes>, t: Tree, s: Slot)
    requires ObjectsOk(fat, t.o) && Agree(fat, data, fat', data', t)
    ensures NodeOf(data', t, s) == NodeOf(data, t, s)
  {
    assert ObjectAt(fat, t.o, First(s));
    if First(s) in t.o.chains {
      ContentFrame(data, data', t.o.chains[First(s)]);
    }
  }

  ghost predicate SameHit(data: seq<Bytes>, n: nat, t: Tree, data': seq<Bytes>, t': Tree, d: nat, name: Bytes, p: Pos) {
    && (Hit(data', n, t', d, name, p) <==> Hit(data, n, t, d, name, p))
    && (Hit(data, n, t, d, name, p) ==>
          NodeOf(data', t', SlotAt(data', t'.o.chains[d], p)) == NodeOf(data, t, SlotAt(data, t.o.chains[d], p)))
  }

  ghost predicate SameHits(data: seq<Bytes>, n: nat, t: Tree, data': seq<Bytes>, t': Tree, d: nat, name: Bytes) {
    forall p: Pos {:trigger SameHit(data, n, t, data', t', d, name, p)} :: SameHit(data, n, t, data', t', d, name, p)
  }

  /** Two volumes show the same under a name when their hits agree. */
  lemma ViewSame(fat: Fat, data: seq<Bytes>, n: nat, t: Tree, fat': Fat, data': seq<Bytes>, t': Tree, d: nat, name: Bytes)
    requires Good(fat, data, n, t) && Good(fat', data', n, t') && SameHits(data, n, t, data', t', d, name)
    ensures View(data', n, t', d, name) == View(data, n, t, d, name)
  {
    forall p: Pos ensures Hit(data', n, t', d, name, p) <==> Hit(data, n, t, d, name, p) {
      assert SameHit(data, n, t, data', t', d, name, p);
    }
    if !Missing(data, n, t, d, name) {
      var p :| Hit(data, n, t, d, name, p);
      assert SameHit(data, n, t, data', t', d, name, p);
      ViewIs(fat, data, n, t, d, name, p);
      ViewIs(fat', data', n, t', d, name, p);
    }
  }

  lemma ViewFrame(fat: Fat, data: seq<Bytes>, n: nat, t: Tree, fat': Fat, data': seq<Bytes>, d: nat, name: Bytes)
    requires Good(fat, data, n, t) && Agree(fat, data, fat', data', t) && WellSized(data', n)
    ensures Good(fat', data', n, t) && View(data', n, t, d, name) == View(data, n, t, d, name)
  {
    Frame(fat, data, n, t, fat', data');
    forall p: Pos ensures SameHit(data, n, t, data', t, d, name, p) {
      if d in t.o.chains {
        SlotsAgree(fat, data, fat', data', t, d, p);
        NodesAgree(fat, data, fat', data', t, SlotAt(data, t.o.chains[d], p));
      }
    }
    ViewSame(fat, data, n, t, fat', data', t, d, name);
  }

  // ---------- a directory grows by a cluster of unused slots ----------

  ghost function Grown(t: Tree, d: nat, c: nat): Tree
    requires d in t.o.chains
  {
    var ch := t.o.chains[d];
    t.(o := With(t.o, d, ch + [c]), end := t.end[d := Pos(|ch|, 0)])
  }

  ghost predicate Full(data: seq<Bytes>, n: nat, t: Tree, d: nat) {
    forall p: Pos :: IsSlot(n, t, d, p) ==> !Unused(SlotAt(data, t.o.chains[d], p))
  }

  lemma GrownSlots(data: seq<Bytes>, t: Tree, d: nat, c: nat, e: nat, p: Pos)
    requires d in t.o.chains && e in t.o.chains && c < |data| && Blank(data[c])
    ensures SlotAt(data, Grown(t, d, c).o.chains[e], p)
         == if e == d && p.i == |t.o.chains[d]| then seq(SLOT, _ => 0) else SlotAt(data, t.o.chains[e], p)
  {
    if e == d && p.i == |t.o.chains[d]| {
      ZeroSlot(data[c], p.j);
    }
  }

  lemma GrownOk(fat: Fat, data: seq<Bytes>, n: nat, t: Tree, d: nat, c: nat, e: nat, p: Pos)
    requires Good(fat, data, n, t) && d in t.depth && Full(data, n, t, d)
    requires 2 <= c < |fat| && Blank(data[c])
    ensures SlotOk(data, n, Grown(t, d, c), e, p)
  {
    if e in t.o.chains {
      GrownSlots(data, t, d, c, e, p);
    }
    assert SlotOk(data, n, t, e, p);
  }

  lemma GrowDir(fat: Fat, data: seq<Bytes>, n: nat, t: Tree, d: nat, c: nat, fat': Fat)
    requires Good(fat, data, n, t) && d in t.depth && Full(data, n, t, d)
    requires 2 <= c < |fat| && c !in t.o.owner && fat[c] >= EOC_MIN && Blank(data[c])
    requires t.o.chains[d] != [] && t.o.chains[d][|t.o.chains[d]| - 1] < |fat|
             && fat' == fat[t.o.chains[d][|t.o.chains[d]| - 1] := c]
    ensures Good(fat', data, n, Grown(t, d, c))
  {
    assert ObjectAt(fat, t.o, d);
    GrowObject(fat, t.o, d, c, fat');
    forall e: nat, p: Pos ensures SlotOk(data, n, Grown(t, d, c), e, p) {
      GrownOk(fat, data, n, t, d, c, e, p);
    }
  }

  lemma StartInRange(fat: Fat, o: Objects, s: nat)
    requires ObjectsOk(fat, o) && s in o.chains
    ensures 2 <= s < |fat|
  {
    assert ObjectAt(fat, o, s);
    assert o.chains[s][0] in o.chains[s];
    InRange(fat, o.chains[s], s);
  }

  lemma GrownHit(fat: Fat, data: seq<Bytes>, n: nat, t: Tree, d: nat, c: nat, e: nat, name: Bytes, p: Pos)
    requires Good(fat, data, n, t) && d in t.depth
    requires c < |data| && Blank(data[c])
    ensures SameHit(data, n, t, data, Grown(t, d, c), e, name, p)
  {
    StartInRange(fat, t.o, d);
    if e in t.o.chains {
      GrownSlots(data, t, d, c, e, p);
    }
    assert SlotOk(data, n, t, e, p);
  }

  lemma GrownView(fat: Fat, data: seq<Bytes>, n: nat, t: Tree, d: nat, c: nat, fat': Fat, e: nat, name: Bytes)
    requires Good(fat, data, n, t) && d in t.depth
    requires c < |data| && Blank(data[c])
    requires Good(fat', data, n, Grown(t, d, c))
    ensures View(data, n, Grown(t, d, c), e, name) == View(data, n, t, e, name)
  {
    var t' := Grown(t, d, c);
    forall p: Pos ensures SameHit(data, n, t, data, t', e, name, p) {
      GrownHit(fat, data, n, t, d, c, e, name, p);
    }
    ViewSame(fat, data, n, t, fat', data, t', e, name);
  }

  // ---------- a new object, not yet in any directory ----------

  ghost function Held(t: Tree, ch: Chain): Tree
    requires ch != []
  {
    t.(o := With(t.o, ch[0], ch))
  }

  lemma HoldObject(fat: Fat, data: seq<Bytes>, n: nat, t: Tree, ch: Chain)
    requires Good(fat, data, n, t) && IsChain(fat, ch) && forall c :: c in ch ==> c !in t.o.owner
    ensures ch[0] !in t.o.chains && Good(fat, data, n, Held(t, ch))
  {
    AddObject(fat, t.o, ch);
    forall d: nat, p: Pos ensures SlotOk(data, n, Held(t, ch), d, p) {
      assert SlotOk(data, n, t, d, p);
    }
  }

  lemma HeldHit(fat: Fat, data: seq<Bytes>, n: nat, t: Tree, ch: Chain, d: nat, name: Bytes, p: Pos)
    requires Good(fat, data, n, t) && ch != [] && ch[0] >= 2 && ch[0] !in t.o.chains
    ensures SameHit(data, n, t, data, Held(t, ch), d, name, p)
  {
    assert SlotOk(data, n, t, d, p);
  }

  lemma HeldView(fat: Fat, data: seq<Bytes>, n: nat, t: Tree, ch: Chain, d: nat, name: Bytes)
    requires Good(fat, data, n, t) && IsChain(fat, ch) && forall c :: c in ch ==> c !in t.o.owner
    ensures View(data, n, Held(t, ch), d, name) == View(data, n, t, d, name)
  {
    HoldObject(fat, data, n, t, ch);
    InRange(fat, ch, ch[0]);
    forall p: Pos ensures SameHit(data, n, t, data, Held(t, ch), d, name, p) {
      HeldHit(fat, data, n, t, ch, d, name, p);
    }
    ViewSame(fat, data, n, t, fat, data, Held(t, ch), d, name);
  }

  /** A cluster of unused slots as a directory k deep. */
  ghost function HeldDir(t: Tree, c: nat, k: nat): Tree {
    var h := Held(t, [c]);
    h.(depth := h.depth[c := k], end := h.end[c := Pos(0, 0)])
  }

  ghost predicate Blank(cluster: Bytes) {
    forall i :: 0 <= i < |cluster| ==> cluster[i] == 0
  }

  lemma HeldDirOk(fat: Fat, data: seq<Bytes>, n: nat, t: Tree, c: nat, k: nat, d: nat, p: Pos)
    requires Good(fat, data, n, t) && c >= 2 && c !in t.o.chains && c < |data| && Blank(data[c])
    ensures SlotOk(data, n, HeldDir(t, c, k), d, p)
  {
    assert SlotOk(data, n, t, d, p);
    ZeroSlot(data[c], p.j);
  }

  lemma HoldDir(fat: Fat, data: seq<Bytes>, n: nat, t: Tree, c: nat, k: nat)
    requires Good(fat, data, n, t) && IsChain(fat, [c]) && c !in t.o.owner && c < |data| && Blank(data[c])
    ensures c >= 2 && c !in t.o.chains && Good(fat, data, n, HeldDir(t, c, k))
  {
    AddObject(fat, t.o, [c]);
    InRange(fat, [c], c);
    forall d: nat, p: Pos ensures SlotOk(data, n, HeldDir(t, c, k), d, p) {
      HeldDirOk(fat, data, n, t, c, k, d, p);
    }
  }

  lemma HeldDirHit(fat: Fat, data: seq<Bytes>, n: nat, t: Tree, c: nat, k: nat, d: nat, name: Bytes, p: Pos)
    requires Good(fat, data, n, t) && c >= 2 && c !in t.o.chains && c < |data| && Blank(data[c])
    ensures SameHit(data, n, t, data, HeldDir(t, c, k), d, name, p)
  {
    assert SlotOk(data, n, t, d, p);
    ZeroSlot(data[c], p.j);
  }

  lemma HeldDirView(fat: Fat, data: seq<Bytes>, n: nat, t: Tree, c: nat, k: nat, d: nat, name: Bytes)
    requires Good(fat, data, n, t) && IsChain(fat, [c]) && c !in t.o.owner && c < |data| && Blank(data[c])
    ensures View(data, n, HeldDir(t, c, k), d, name) == View(data, n, t, d, name)
  {
    HoldDir(fat, data, n, t, c, k);
    forall p: Pos ensures SameHit(data, n, t, data, HeldDir(t, c, k), d, name, p) {
      HeldDirHit(fat, data, n, t, c, k, d, name, p);
    }
    ViewSame(fat, data, n, t, fat, data, HeldDir(t, c, k), d, name);
  }

  // ---------- one slot of a directory rewritten ----------

  /** The data with slot p of directory d rewritten. */
  ghost predicate Put(fat: Fat, data: seq<Bytes>, n: nat, t: Tree, d: nat, p: Pos, s: Slot, data': seq<Bytes>) {
    && IsSlot(n, t, d, p) && t.o.chains[d][p.i] < |data| && SLOT * p.j + SLOT <= |data[t.o.chains[d][p.i]]|
    && data' == data[t.o.chains[d][p.i] := SetSlot(data[t.o.chains[d][p.i]], p.j, s)]
  }

  lemma PutSlots(fat: Fat, data: seq<Bytes>, n: nat, t: Tree, d: nat, p: Pos, s: Slot, data': seq<Bytes>, e: nat, q: Pos)
    requires Good(fat, data, n, t) && Put(fat, data, n, t, d, p, s, data') && e in t.o.chains
    ensures SlotAt(data', t.o.chains[e], q) == if e == d && q == p then s else SlotAt(data, t.o.chains[e], q)
  {
    var c := t.o.chains[d][p.i];
    SetSlotIn(data[c], p.j, s, q.j);
    assert ObjectAt(fat, t.o, d) && ObjectAt(fat, t.o, e);
    assert c in t.o.chains[d];
    if q.i < |t.o.chains[e]| && t.o.chains[e][q.i] == c {
      assert c in t.o.chains[e];
      ObjectsDisjoint(fat, t.o, d, e, c);
    }
  }

  lemma PutContent(fat: Fat, data: seq<Bytes>, n: nat, t: Tree, d: nat, p: Pos, s: Slot, data': seq<Bytes>, e: nat)
    requires Good(fat, data, n, t) && Put(fat, data, n, t, d, p, s, data') && e in t.o.chains && e !in t.depth
    ensures Content(data', t.o.chains[e]) == Content(data, t.o.chains[e])
  {
    var c := t.o.chains[d][p.i];
    assert c in t.o.chains[d];
    if c in t.o.chains[e] {
      ObjectsDisjoint(fat, t.o, d, e, c);
    }
    ContentFrame(data, data', t.o.chains[e]);
  }

  // ---------- a new entry ----------

  ghost predicate Unreferenced(data: seq<Bytes>, n: nat, t: Tree, first: nat) {
    forall d: nat, p: Pos :: IsSlot(n, t, d, p) && Visible(SlotAt(data, t.o.chains[d], p))
                             ==> First(SlotAt(data, t.o.chains[d], p)) != first
  }

  /** Slot p of d may take an entry: it is deleted, or the first unused one. */
  ghost predicate Room(data: seq<Bytes>, n: nat, t: Tree, d: nat, p: Pos) {
    && IsSlot(n, t, d, p) && Reusable(SlotAt(data, t.o.chains[d], p))
    && forall q: Pos :: IsSlot(n, t, d, q) && Before(q, p) ==> !Unused(SlotAt(data, t.o.chains[d], q))
  }

  /** The tree with a name of d standing at p and leading to an object. */
  ghost function Entered(t: Tree, d: nat, p: Pos, name: Bytes, first: nat, wasUnused: bool): Tree {
    t.(names := t.names[Key(d, name) := p], place := t.place[first := Place(d, p)],
       end := if wasUnused then t.end[d := Pos(p.i, p.j + 1)] else t.end)
  }

  ghost function EnteredAt(data: seq<Bytes>, t: Tree, d: nat, p: Pos, s: Slot): Tree
    requires d in t.o.chains
  {
    Entered(t, d, p, Name(s), First(s), Unused(SlotAt(data, t.o.chains[d], p)))
  }

  /** What an entry put at p needs. */
  ghost predicate Enters(fat: Fat, data: seq<Bytes>, n: nat, t: Tree, d: nat, p: Pos, s: Slot, data': seq<Bytes>) {
    && Good(fat, data, n, t) && Put(fat, data, n, t, d, p, s, data') && Room(data, n, t, d, p)
    && Missing(data, n, t, d, Name(s)) && (First(s) >= 2 ==> Unreferenced(data, n, t, First(s)))
    && Visible(s) && Leads(t, d, s)
  }

  lemma EnteredOk(fat: Fat, data: seq<Bytes>, n: nat, t: Tree, d: nat, p: Pos, s: Slot, data': seq<Bytes>, e: nat, q: Pos)
    requires Enters(fat, data, n, t, d, p, s, data')
    ensures SlotOk(data', n, EnteredAt(data, t, d, p, s), e, q)
  {
    if IsSlot(n, t, e, q) {
      PutSlots(fat, data, n, t, d, p, s, data', e, q);
      assert SlotOk(data, n, t, e, q) && SlotOk(data, n, t, d, p);
      if e == d && q != p && Visible(SlotAt(data, t.o.chains[d], q)) {
        assert !Hit(data, n, t, d, Name(s), q);
      }
    }
  }

  lemma PutSized(fat: Fat, data: seq<Bytes>, n: nat, t: Tree, d: nat, p: Pos, s: Slot, data': seq<Bytes>)
    requires Good(fat, data, n, t) && Put(fat, data, n, t, d, p, s, data')
    ensures |data'| == |data| && WellSized(data', n)
  {
  }

  lemma EnterEntry(fat: Fat, data: seq<Bytes>, n: nat, t: Tree, d: nat, p: Pos, s: Slot, data': seq<Bytes>)
    requires Enters(fat, data, n, t, d, p, s, data')
    ensures Good(fat, data', n, EnteredAt(data, t, d, p, s))
  {
    PutSized(fat, data, n, t, d, p, s, data');
    forall e: nat, q: Pos ensures SlotOk(data', n, EnteredAt(data, t, d, p, s), e, q) {
      EnteredOk(fat, data, n, t, d, p, s, data', e, q);
    }
  }

  lemma PutNode(fat: Fat, data: seq<Bytes>, n: nat, t: Tree, d: nat, p: Pos, s: Slot, data': seq<Bytes>, t': Tree, r: Slot)
    requires Good(fat, data, n, t) && Put(fat, data, n, t, d, p, s, data') && t'.o == t.o
    requires !IsDir(r) && First(r) in t.o.chains ==> First(r) !in t.depth
    ensures NodeOf(data', t', r) == NodeOf(data, t, r)
  {
    if !IsDir(r) && First(r) in t.o.chains {
      PutContent(fat, data, n, t, d, p, s, data', First(r));
    }
  }

  lemma FileNotDir(fat: Fat, data: seq<Bytes>, n: nat, t: Tree, d: nat, p: Pos)
    requires Good(fat, data, n, t) && IsSlot(n, t, d, p) && Visible(SlotAt(data, t.o.chains[d], p))
    requires !IsDir(SlotAt(data, t.o.chains[d], p)) && First(SlotAt(data, t.o.chains[d], p)) in t.o.chains
    ensures First(SlotAt(data, t.o.chains[d], p)) !in t.depth
  {
    assert SlotOk(data, n, t, d, p);
    StartInRange(fat, t.o, First(SlotAt(data, t.o.chains[d], p)));
  }

  lemma EnteredHit(fat: Fat, data: seq<Bytes>, n: nat, t: Tree, d: nat, p: Pos, s: Slot, data': seq<Bytes>, e: nat, name: Bytes, q: Pos)
    requires Enters(fat, data, n, t, d, p, s, data') && (e != d || name != Name(s))
    ensures SameHit(data, n, t, data', EnteredAt(data, t, d, p, s), e, name, q)
  {
    var t' := EnteredAt(data, t, d, p, s);
    if IsSlot(n, t, e, q) {
      PutSlots(fat, data, n, t, d, p, s, data', e, q);
      if Hit(data, n, t, e, name, q) {
        var r := SlotAt(data, t.o.chains[e], q);
        if !IsDir(r) && First(r) in t.o.chains {
          FileNotDir(fat, data, n, t, e, q);
        }
        PutNode(fat, data, n, t, d, p, s, data', t', r);
      }
    }
  }

  /** The new name shows the new node, every other name shows what it did. */
  lemma EnteredView(fat: Fat, data: seq<Bytes>, n: nat, t: Tree, d: nat, p: Pos, s: Slot, data': seq<Bytes>, e: nat, name: Bytes)
    requires Enters(fat, data, n, t, d, p, s, data')
    ensures View(data', n, EnteredAt(data, t, d, p, s), e, name)
         == if e == d && name == Name(s) then NodeOf(data', EnteredAt(data, t, d, p, s), s) else View(data, n, t, e, name)
  {
    var t' := EnteredAt(data, t, d, p, s);
    EnterEntry(fat, data, n, t, d, p, s, data');
    if e == d && name == Name(s) {
      PutSlots(fat, data, n, t, d, p, s, data', d, p);
      ViewIs(fat, data', n, t', d, name, p);
    } else {
      forall q: Pos ensures SameHit(data, n, t, data', t', e, name, q) {
        EnteredHit(fat, data, n, t, d, p, s, data', e, name, q);
      }
      ViewSame(fat, data, n, t, fat, data', t', e, name);
    }
  }

  // ---------- an entry removed ----------

  ghost function Erased(t: Tree, first: nat): Tree {
    if first < 2 then t else t.(o := Without(t.o, first), depth := map d | d in t.depth && d != first :: t.depth[d])
  }

  ghost function Released(fat: Fat, t: Tree, first: nat): Fat {
    if first in t.o.chains && first >= 2 then Freed(fat, t.o.chains[first]) else fat
  }

  /** What taking out the entry at p needs. */
  ghost predicate Erases(fat: Fat, data: seq<Bytes>, n: nat, t: Tree, d: nat, p: Pos, s: Slot, data': seq<Bytes>) {
    && Good(fat, data, n, t) && Put(fat, data, n, t, d, p, s, data') && s[0] == DELETED
    && Visible(SlotAt(data, t.o.chains[d], p))
  }

  /** The object of the entry is neither the root nor the directory itself, and no other entry leads to it. */
  lemma ErasedTarget(fat: Fat, data: seq<Bytes>, n: nat, t: Tree, d: nat, p: Pos, e: nat, q: Pos)
    requires Good(fat, data, n, t) && IsSlot(n, t, d, p) && Visible(SlotAt(data, t.o.chains[d], p))
    requires First(SlotAt(data, t.o.chains[d], p)) >= 2
    ensures var first := First(SlotAt(data, t.o.chains[d], p));
            first in t.o.chains && first != t.root && first != d
            && (IsSlot(n, t, e, q) && Visible(SlotAt(data, t.o.chains[e], q)) && (e != d || q != p)
                ==> First(SlotAt(data, t.o.chains[e], q)) != first)
  {
    assert SlotOk(data, n, t, d, p) && SlotOk(data, n, t, e, q);
  }

  lemma ErasedOk(fat: Fat, data: seq<Bytes>, n: nat, t: Tree, d: nat, p: Pos, s: Slot, data': seq<Bytes>, e: nat, q: Pos)
    requires Erases(fat, data, n, t, d, p, s, data')
    ensures SlotOk(data', n, Erased(t, First(SlotAt(data, t.o.chains[d], p))), e, q)
  {
    var first := First(SlotAt(data, t.o.chains[d], p));
    if IsSlot(n, t, e, q) {
      PutSlots(fat, data, n, t, d, p, s, data', e, q);
      assert SlotOk(data, n, t, e, q);
      if first >= 2 {
        ErasedTarget(fat, data, n, t, d, p, e, q);
      }
    }
  }

  lemma EraseEntry(fat: Fat, data: seq<Bytes>, n: nat, t: Tree, d: nat, p: Pos, s: Slot, data': seq<Bytes>)
    requires Erases(fat, data, n, t, d, p, s, data')
    ensures var first := First(SlotAt(data, t.o.chains[d], p));
            Good(Released(fat, t, first), data', n, Erased(t, first))
  {
    var first := First(SlotAt(data, t.o.chains[d], p));
    PutSized(fat, data, n, t, d, p, s, data');
    if first >= 2 {
      ErasedTarget(fat, data, n, t, d, p, d, p);
      RemoveObject(fat, t.o, first);
    }
    forall e: nat, q: Pos ensures SlotOk(data', n, Erased(t, first), e, q) {
      ErasedOk(fat, data, n, t, d, p, s, data', e, q);
    }
  }

  lemma ErasedHit(fat: Fat, data: seq<Bytes>, n: nat, t: Tree, d: nat, p: Pos, s: Slot, data': seq<Bytes>, e: nat, name: Bytes, q: Pos)
    requires Erases(fat, data, n, t, d, p, s, data') && (e != d || name != Name(SlotAt(data, t.o.chains[d], p)))
    requires e != First(SlotAt(data, t.o.chains[d], p))
    ensures SameHit(data, n, t, data', Erased(t, First(SlotAt(data, t.o.chains[d], p))), e, name, q)
  {
    var first := First(SlotAt(data, t.o.chains[d], p));
    var t' := Erased(t, first);
    if IsSlot(n, t, e, q) {
      PutSlots(fat, data, n, t, d, p, s, data', e, q);
      if Hit(data, n, t, e, name, q) {
        var r := SlotAt(data, t.o.chains[e], q);
        if !IsDir(r) && First(r) in t.o.chains {
          FileNotDir(fat, data, n, t, e, q);
        }
        PutNode(fat, data, n, t, d, p, s, data', t, r);
        if first >= 2 {
          ErasedTarget(fat, data, n, t, d, p, e, q);
        }
      }
    }
  }

  /** The name is gone; every other name, except in a directory that was itself removed, shows what it did. */
  lemma ErasedView(fat: Fat, data: seq<Bytes>, n: nat, t: Tree, d: nat, p: Pos, s: Slot, data': seq<Bytes>, e: nat, name: Bytes)
    requires Erases(fat, data, n, t, d, p, s, data')
    ensures var first := First(SlotAt(data, t.o.chains[d], p));
            View(data', n, Erased(t, first), e, name)
            == if (e == d && name == Name(SlotAt(data, t.o.chains[d], p))) || (e == first && first >= 2) then Absent
               else View(data, n, t, e, name)
  {
    var gone := SlotAt(data, t.o.chains[d], p);
    var first := First(gone);
    var t' := Erased(t, first);
    EraseEntry(fat, data, n, t, d, p, s, data');
    if e == d && name == Name(gone) {
      forall q: Pos ensures !Hit(data', n, t', e, name, q) {
        ErasedMiss(fat, data, n, t, d, p, s, data', q);
      }
    } else if e == first && first >= 2 {
      assert Missing(data', n, t', e, name);
    } else {
      forall q: Pos ensures SameHit(data, n, t, data', t', e, name, q) {
        if e == first {
          StartsNotSmall(fat, data, n, t, e, q);
        } else {
          ErasedHit(fat, data, n, t, d, p, s, data', e, name, q);
        }
      }
      ViewSame(fat, data, n, t, Released(fat, t, first), data', t', e, name);
    }
  }

  lemma StartsNotSmall(fat: Fat, data: seq<Bytes>, n: nat, t: Tree, e: nat, q: Pos)
    requires Good(fat, data, n, t) && e < 2
    ensures !IsSlot(n, t, e, q)
  {
    forall s: nat | s in t.o.chains ensures s >= 2 {
      StartInRange(fat, t.o, s);
    }
  }

  lemma ErasedMiss(fat: Fat, data: seq<Bytes>, n: nat, t: Tree, d: nat, p: Pos, s: Slot, data': seq<Bytes>, q: Pos)
    requires Erases(fat, data, n, t, d, p, s, data')
    ensures var gone := SlotAt(data, t.o.chains[d], p);
            !Hit(data', n, Erased(t, First(gone)), d, Name(gone), q)
  {
    if IsSlot(n, t, d, q) {
      PutSlots(fat, data, n, t, d, p, s, data', d, q);
      var gone := SlotAt(data, t.o.chains[d], p);
      if Hit(data, n, t, d, Name(gone), q) {
        HitUnique(fat, data, n, t, d, Name(gone), p, q);
      }
    }
  }

  // ---------- what soundness means ----------

  ghost predicate Leading(data: seq<Bytes>, n: nat, t: Tree, d: nat, p: Pos) {
    IsSlot(n, t, d, p) && Visible(SlotAt(data, t.o.chains[d], p)) && First(SlotAt(data, t.o.chains[d], p)) >= 2
  }

  /** An entry's chain ends, repeats no cluster and holds no free one. */
  lemma EntryChain(fat: Fat, data: seq<Bytes>, n: nat, t: Tree, d: nat, p: Pos)
    requires Good(fat, data, n, t) && Leading(data, n, t, d, p)
    ensures var first := First(SlotAt(data, t.o.chains[d], p));
            first in t.o.chains && t.o.chains[first] != [] && t.o.chains[first][0] == first
            && IsChain(fat, t.o.chains[first]) && forall c :: c in t.o.chains[first] ==> 2 <= c < |fat| && fat[c] != 0
  {
    var first := First(SlotAt(data, t.o.chains[d], p));
    assert SlotOk(data, n, t, d, p);
    assert ObjectAt(fat, t.o, first);
    forall c | c in t.o.chains[first] ensures 2 <= c < |fat| && fat[c] != 0 {
      InRange(fat, t.o.chains[first], c);
    }
  }

  /** Different entries have disjoint chains, none of which meets the root directory's. */
  lemma EntriesDisjoint(fat: Fat, data: seq<Bytes>, n: nat, t: Tree, d: nat, p: Pos, e: nat, q: Pos, c: nat)
    requires Good(fat, data, n, t) && Leading(data, n, t, d, p) && Leading(data, n, t, e, q) && (d != e || p != q)
    ensures var a, b := First(SlotAt(data, t.o.chains[d], p)), First(SlotAt(data, t.o.chains[e], q));
            a in t.o.chains && b in t.o.chains && t.root in t.o.chains
            && !(c in t.o.chains[a] && c in t.o.chains[b]) && !(c in t.o.chains[a] && c in t.o.chains[t.root])
  {
    var a, b := First(SlotAt(data, t.o.chains[d], p)), First(SlotAt(data, t.o.chains[e], q));
    ErasedTarget(fat, data, n, t, d, p, e, q);
    EntryChain(fat, data, n, t, e, q);
    assert ObjectAt(fat, t.o, a) && ObjectAt(fat, t.o, b) && ObjectAt(fat, t.o, t.root);
  }

  /** Behind the first unused slot of a directory every slot is unused. */
  lemma UnusedTail(fat: Fat, data: seq<Bytes>, n: nat, t: Tree, d: nat, p: Pos, q: Pos)
    requires Good(fat, data, n, t) && IsSlot(n, t, d, p) && IsSlot(n, t, d, q) && Before(p, q)
    requires Unused(SlotAt(data, t.o.chains[d], p))
    ensures Unused(SlotAt(data, t.o.chains[d], q))
  {
    assert SlotOk(data, n, t, d, p) && SlotOk(data, n, t, d, q);
  }
}
