/** A file's bytes stored cluster by cluster in a growing FAT32 chain. */
module FatStores {
  import opened FatModel
  import opened FatDirs
  import opened FatTrees

  function Zeros(k: nat): (z: Bytes)
    ensures |z| == k && Blank(z)
  {
    seq(k, _ => 0)
  }

  /** Clusters of size b that hold len bytes. */
  ghost function Needed(len: nat, b: nat): nat {
    if len == 0 || b == 0 then 0 else if len <= b then 1 else 1 + Needed(len - b, b)
  }

  /** The first w bytes stand in chain ch, made of clusters that were free; nothing else changed. */
  ghost predicate Storing(fat0: Fat, data0: seq<Bytes>, fat: Fat, data: seq<Bytes>, n: nat, ch: Chain, bytes: Bytes, w: nat) {
    && |fat| == |fat0| == |data0| == |data| && w <= |bytes| && WellSized(data, n)
    && OnlyIn(fat0, data0, fat, data, ch) && (if ch == [] then w == 0 else IsChain(fat, ch))
    && Holds(data, ch, bytes, w)
  }

  ghost predicate OnlyIn(fat0: Fat, data0: seq<Bytes>, fat: Fat, data: seq<Bytes>, ch: Chain) {
    && |fat| == |fat0| == |data0| == |data|
    && (forall c: nat :: c < |fat| && c !in ch ==> fat[c] == fat0[c] && data[c] == data0[c])
    && (forall c :: c in ch ==> c < |fat0| && fat0[c] == 0)
  }

  ghost predicate Holds(data: seq<Bytes>, ch: Chain, bytes: Bytes, w: nat) {
    && w <= |bytes| && w <= |Content(data, ch)| && Content(data, ch)[..w] == bytes[..w]
    && (w < |bytes| ==> |Content(data, ch)| == w)
  }

  /** The table is as it was, and only clusters that were free had their bytes changed. */
  ghost predicate Undone(fat0: Fat, data0: seq<Bytes>, fat: Fat, data: seq<Bytes>) {
    fat == fat0 && |data| == |data0| == |fat| && forall c: nat :: c < |fat| && fat[c] != 0 ==> data[c] == data0[c]
  }

  lemma {:induction false} ContentAppend(data: seq<Bytes>, ch: Chain, c: nat)
    requires c < |data|
    ensures Content(data, ch + [c]) == Content(data, ch) + data[c]
  {
    if ch == [] {
      assert [c][1..] == [] && Content(data, [c]) == data[c] + Content(data, []);
    } else {
      assert (ch + [c])[1..] == ch[1..] + [c];
      ContentAppend(data, ch[1..], c);
    }
  }

  /** The table after cluster c is claimed and hung behind ch. */
  ghost predicate Hangs(fat: Fat, ch: Chain, c: nat, fat': Fat) {
    && c < |fat| && (ch != [] ==> ch[|ch| - 1] < |fat|)
    && fat' == if ch == [] then fat[c := EOC] else fat[c := EOC][ch[|ch| - 1] := c]
  }

  lemma HangChain(fat: Fat, ch: Chain, c: nat, fat': Fat)
    requires |fat| <= EOC_MIN && 2 <= c < |fat| && fat[c] == 0 && Hangs(fat, ch, c, fat') && (ch != [] ==> IsChain(fat, ch))
    ensures IsChain(fat', ch + [c]) && c !in ch
  {
    NewChain(fat, c);
    if ch == [] {
      assert ch + [c] == [c];
    } else {
      FreeNotInChain(fat, ch, c);
      ChainFrame(fat, fat[c := EOC], ch);
      Link(fat[c := EOC], ch, c);
    }
  }

  lemma HangCount(fat: Fat, ch: Chain, c: nat, fat': Fat)
    requires |fat| <= EOC_MIN && 2 <= c < |fat| && fat[c] == 0 && Hangs(fat, ch, c, fat') && (ch != [] ==> IsChain(fat, ch))
    ensures FreeCount(fat') + 1 == FreeCount(fat)
  {
    FreeSet(fat, 2, c, EOC);
    if ch != [] {
      FreeNotInChain(fat, ch, c);
      var last := ch[|ch| - 1];
      assert last in ch;
      InRange(fat, ch, last);
      FreeSet(fat[c := EOC], 2, last, c);
    }
  }

  lemma HoldMore(data: seq<Bytes>, ch: Chain, c: nat, data': seq<Bytes>, bytes: Bytes, w: nat, w': nat)
    requires Holds(data, ch, bytes, w) && w < w' <= |bytes| && c !in ch && c < |data|
    requires |data'| == |data| && data' == data[c := data'[c]] && w' - w <= |data'[c]| && data'[c][..w' - w] == bytes[w..w']
    requires w' < |bytes| ==> |data'[c]| == w' - w
    ensures Holds(data', ch + [c], bytes, w')
  {
    ContentFrame(data, data', ch);
    ContentAppend(data', ch, c);
    assert (Content(data, ch) + data'[c])[..w'] == Content(data, ch) + data'[c][..w' - w];
    assert Content(data, ch) == Content(data, ch)[..w];
    assert bytes[..w'] == bytes[..w] + bytes[w..w'];
  }

  lemma StoreStep(fat0: Fat, data0: seq<Bytes>, fat: Fat, data: seq<Bytes>, n: nat, ch: Chain, bytes: Bytes, w: nat,
                  c: nat, fat': Fat, data': seq<Bytes>, w': nat)
    requires Storing(fat0, data0, fat, data, n, ch, bytes, w) && |fat| <= EOC_MIN && w < w' <= |bytes|
    requires 2 <= c < |fat| && fat[c] == 0 && Hangs(fat, ch, c, fat')
    requires |data'| == |data| && data' == data[c := data'[c]] && |data'[c]| == SLOT * n
    requires w' - w <= SLOT * n && data'[c][..w' - w] == bytes[w..w'] && (w' < |bytes| ==> w' - w == SLOT * n)
    ensures Storing(fat0, data0, fat', data', n, ch + [c], bytes, w')
  {
    HangChain(fat, ch, c, fat');
    HoldMore(data, ch, c, data', bytes, w, w');
    assert OnlyIn(fat0, data0, fat', data', ch + [c]);
  }

  lemma NeededStep(len: nat, b: nat, w: nat, w': nat)
    requires b > 0 && w < w' <= len && w' - w <= b && (w' < len ==> w' - w == b)
    ensures Needed(len - w, b) == 1 + Needed(len - w', b)
  {
  }

  /** Giving the chain back leaves the table as it was. */
  lemma StoreUndone(fat0: Fat, data0: seq<Bytes>, fat: Fat, data: seq<Bytes>, n: nat, ch: Chain, bytes: Bytes, w: nat, fat': Fat)
    requires Storing(fat0, data0, fat, data, n, ch, bytes, w) && fat' == Freed(fat, ch)
    ensures Undone(fat0, data0, fat', data)
  {
  }

  // ---------- a directory lengthened ----------

  lemma DirChain(fat: Fat, t: Tree, d: nat)
    requires ObjectsOk(fat, t.o) && d in t.o.chains
    ensures IsChain(fat, t.o.chains[d]) && t.o.chains[d][0] == d
  {
    assert ObjectAt(fat, t.o, d);
  }

  ghost predicate Roomy(data: seq<Bytes>, n: nat, t: Tree, d: nat) {
    exists p: Pos :: IsSlot(n, t, d, p) && Reusable(SlotAt(data, t.o.chains[d], p))
  }

  /** The directory's chain ends in a further, blank, cluster. */
  ghost predicate Lengthens(fat: Fat, data: seq<Bytes>, n: nat, t: Tree, d: nat, c: nat, fat': Fat, data': seq<Bytes>, t': Tree) {
    && d in t.o.chains && t' == Grown(t, d, c) && c < |fat| && c < |data|
    && (var ch := t.o.chains[d];
        ch != [] && ch[|ch| - 1] < |fat| && fat' == fat[c := EOC][ch[|ch| - 1] := c])
    && data' == data[c := Zeros(SLOT * n)]
  }

  lemma LastInRange(fat: Fat, t: Tree, d: nat)
    requires ObjectsOk(fat, t.o) && d in t.o.chains
    ensures t.o.chains[d] != [] && t.o.chains[d][|t.o.chains[d]| - 1] < |fat|
  {
    DirChain(fat, t, d);
    StepChain(fat, t.o.chains[d], |t.o.chains[d]| - 1);
  }

  lemma Lengthen(fat: Fat, data: seq<Bytes>, n: nat, t: Tree, d: nat, c: nat, fat': Fat, data': seq<Bytes>)
    requires Good(fat, data, n, t) && d in t.depth && !Roomy(data, n, t, d) && c != 0 && FirstFree(fat, c)
    requires Lengthens(fat, data, n, t, d, c, fat', data', Grown(t, d, c))
    ensures Good(fat', data', n, Grown(t, d, c)) && Room(data', n, Grown(t, d, c), d, Pos(|t.o.chains[d]|, 0))
  {
    var f := fat[c := EOC];
    FreeNotOwned(fat, t.o, c);
    Frame(fat, data, n, t, f, data');
    forall p: Pos | IsSlot(n, t, d, p) ensures !Unused(SlotAt(data', t.o.chains[d], p)) {
      SlotsAgree(fat, data, f, data', t, d, p);
      assert !Reusable(SlotAt(data, t.o.chains[d], p));
    }
    GrowDir(f, data', n, t, d, c, fat');
    GrownRoom(data', n, t, d, c);
  }

  lemma GrownRoom(data: seq<Bytes>, n: nat, t: Tree, d: nat, c: nat)
    requires d in t.depth && d in t.o.chains && d in t.end && n > 0 && c < |data| && Blank(data[c]) && Full(data, n, t, d)
    ensures Room(data, n, Grown(t, d, c), d, Pos(|t.o.chains[d]|, 0))
  {
    var p := Pos(|t.o.chains[d]|, 0);
    GrownSlots(data, t, d, c, d, p);
    forall q: Pos | IsSlot(n, Grown(t, d, c), d, q) && Before(q, p)
      ensures !Unused(SlotAt(data, Grown(t, d, c).o.chains[d], q))
    {
      GrownSlots(data, t, d, c, d, q);
      assert IsSlot(n, t, d, q);
    }
  }

  lemma LengthenedView(fat: Fat, data: seq<Bytes>, n: nat, t: Tree, d: nat, c: nat, fat': Fat, data': seq<Bytes>, e: nat, name: Bytes)
    requires Good(fat, data, n, t) && d in t.depth && !Roomy(data, n, t, d) && c != 0 && FirstFree(fat, c)
    requires Lengthens(fat, data, n, t, d, c, fat', data', Grown(t, d, c))
    ensures View(data', n, Grown(t, d, c), e, name) == View(data, n, t, e, name)
  {
    var f := fat[c := EOC];
    FreeNotOwned(fat, t.o, c);
    Lengthen(fat, data, n, t, d, c, fat', data');
    ViewFrame(fat, data, n, t, f, data', e, name);
    GrownView(f, data', n, t, d, c, fat', e, name);
  }
}
