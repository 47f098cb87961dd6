/** FAT32 cluster chains: allocating, linking and freeing entries of the allocation table. */
module FatModel {

  const EOC: nat := 0x0FFF_FFFF
  /** Values from here on end a chain. */
  const EOC_MIN: nat := 0x0FFF_FFF7
  const ENTRIES: nat := 0x1000_0000

  type Fat = seq<nat>
  type Chain = seq<nat>

  predicate Continues(c: nat) {
    2 <= c < EOC_MIN
  }

  ghost predicate Distinct(ch: Chain) {
    forall i, j :: 0 <= i < j < |ch| ==> ch[i] != ch[j]
  }

  /** Cluster i of the chain exists and links to the next, the last to the end mark. */
  ghost predicate LinkAt(fat: Fat, ch: Chain, i: nat) {
    i < |ch| ==> 2 <= ch[i] < |fat| && if i + 1 < |ch| then fat[ch[i]] == ch[i + 1] else fat[ch[i]] >= EOC_MIN
  }

  ghost predicate IsChain(fat: Fat, ch: Chain) {
    |fat| <= EOC_MIN && ch != [] && Distinct(ch) && forall i: nat {:trigger LinkAt(fat, ch, i)} :: LinkAt(fat, ch, i)
  }

  /** Links depend only on the entries of the chain's own clusters. */
  lemma ChainFrame(fat: Fat, fat': Fat, ch: Chain)
    requires IsChain(fat, ch) && |fat'| == |fat| && forall c :: c in ch && c < |fat| ==> fat'[c] == fat[c]
    ensures IsChain(fat', ch)
  {
    forall i: nat ensures LinkAt(fat', ch, i) {
      assert LinkAt(fat, ch, i);
    }
  }

  /** A free cluster is in no chain. */
  lemma FreeNotInChain(fat: Fat, ch: Chain, c: nat)
    requires IsChain(fat, ch) && c < |fat| && fat[c] == 0
    ensures c !in ch
  {
    forall i | 0 <= i < |ch| ensures ch[i] != c {
      assert LinkAt(fat, ch, i);
      assert i + 1 < |ch| ==> LinkAt(fat, ch, i + 1);
    }
  }

  lemma InRange(fat: Fat, ch: Chain, c: nat)
    requires IsChain(fat, ch) && c in ch
    ensures 2 <= c < |fat| && fat[c] != 0
  {
    var i :| 0 <= i < |ch| && ch[i] == c;
    assert LinkAt(fat, ch, i);
    assert i + 1 < |ch| ==> LinkAt(fat, ch, i + 1);
  }

  /** A newly claimed cluster is a chain by itself. */
  lemma NewChain(fat: Fat, c: nat)
    requires |fat| <= EOC_MIN && 2 <= c < |fat|
    ensures IsChain(fat[c := EOC], [c])
  {
    var f, ch := fat[c := EOC], [c];
    forall i: nat ensures LinkAt(f, ch, i) {
    }
  }

  /** Hanging a one-cluster chain behind another. */
  lemma Link(fat: Fat, ch: Chain, c: nat)
    requires IsChain(fat, ch) && 2 <= c < |fat| && c !in ch && fat[c] >= EOC_MIN
    ensures ch[|ch| - 1] < |fat| && IsChain(fat[ch[|ch| - 1] := c], ch + [c])
  {
    var last := ch[|ch| - 1];
    assert LinkAt(fat, ch, |ch| - 1);
    var f, ch' := fat[last := c], ch + [c];
    forall i: nat ensures LinkAt(f, ch', i) {
      assert LinkAt(fat, ch, i);
    }
  }

  /** The table with a chain's clusters given back. */
  ghost function Freed(fat: Fat, ch: Chain): (f: Fat)
    ensures |f| == |fat| && forall c :: 0 <= c < |fat| ==> f[c] == if c in ch then 0 else fat[c]
  {
    seq(|fat|, c requires 0 <= c < |fat| => if c in ch then 0 else fat[c])
  }

  lemma FreedFrame(fat: Fat, ch: Chain, other: Chain)
    requires IsChain(fat, other) && (forall c :: c in ch ==> c !in other)
    ensures IsChain(Freed(fat, ch), other)
  {
    ChainFrame(fat, Freed(fat, ch), other);
  }

  // ---------- objects ----------

  /** Files and directories by first cluster, and for each cluster in use the object it belongs to. */
  datatype Objects = Objects(chains: map<nat, Chain>, owner: map<nat, nat>)

  ghost predicate Owned(owner: map<nat, nat>, ch: Chain, s: nat) {
    forall c :: c in ch ==> c in owner && owner[c] == s
  }

  ghost predicate ObjectAt(fat: Fat, o: Objects, s: nat) {
    s in o.chains ==> IsChain(fat, o.chains[s]) && o.chains[s][0] == s && Owned(o.owner, o.chains[s], s)
  }

  /** Every object is a proper chain, and no two share a cluster. */
  ghost predicate ObjectsOk(fat: Fat, o: Objects) {
    && (forall s: nat {:trigger ObjectAt(fat, o, s)} :: ObjectAt(fat, o, s))
    && (forall c: nat :: c in o.owner ==> o.owner[c] in o.chains && c in o.chains[o.owner[c]])
  }

  lemma ObjectsDisjoint(fat: Fat, o: Objects, s: nat, t: nat, c: nat)
    requires ObjectsOk(fat, o) && s in o.chains && t in o.chains && c in o.chains[s] && c in o.chains[t]
    ensures s == t
  {
    assert ObjectAt(fat, o, s) && ObjectAt(fat, o, t);
  }

  /** A free cluster belongs to no object. */
  lemma FreeNotOwned(fat: Fat, o: Objects, c: nat)
    requires ObjectsOk(fat, o) && c < |fat| && fat[c] == 0
    ensures c !in o.owner
  {
    forall d: nat | d in o.owner ensures d < |fat| && fat[d] != 0 {
      var s := o.owner[d];
      assert ObjectAt(fat, o, s);
      InRange(fat, o.chains[s], d);
    }
  }

  /** Entries of clusters nobody owns may change freely. */
  lemma ObjectsFrame(fat: Fat, fat': Fat, o: Objects)
    requires ObjectsOk(fat, o) && |fat'| == |fat| && forall c :: c in o.owner && c < |fat| ==> fat'[c] == fat[c]
    ensures ObjectsOk(fat', o)
  {
    forall s: nat ensures ObjectAt(fat', o, s) {
      assert ObjectAt(fat, o, s);
      if s in o.chains {
        ChainFrame(fat, fat', o.chains[s]);
      }
    }
  }

  ghost function With(o: Objects, s: nat, ch: Chain): Objects {
    Objects(o.chains[s := ch], o.owner + map c | c in ch :: s)
  }

  lemma StartOwned(fat: Fat, o: Objects, s: nat)
    requires ObjectsOk(fat, o) && s in o.chains
    ensures s in o.owner && o.owner[s] == s
  {
    assert ObjectAt(fat, o, s);
    assert o.chains[s][0] in o.chains[s];
  }

  /** A chain of clusters nobody owned becomes an object. */
  lemma AddObject(fat: Fat, o: Objects, ch: Chain)
    requires ObjectsOk(fat, o) && IsChain(fat, ch) && forall c :: c in ch ==> c !in o.owner
    ensures ch[0] !in o.chains && ObjectsOk(fat, With(o, ch[0], ch))
  {
    var s := ch[0];
    var o' := With(o, s, ch);
    assert s in ch;
    forall t: nat | t in o.chains ensures t in o.owner {
      StartOwned(fat, o, t);
    }
    forall t: nat ensures ObjectAt(fat, o', t) {
      assert ObjectAt(fat, o, t);
    }
  }

  /** An object grows by a cluster nobody owned. */
  lemma GrowObject(fat: Fat, o: Objects, s: nat, c: nat, fat': Fat)
    requires ObjectsOk(fat, o) && s in o.chains && c !in o.owner && 2 <= c < |fat| && fat[c] >= EOC_MIN && c !in o.chains[s]
    requires o.chains[s] != [] && o.chains[s][|o.chains[s]| - 1] < |fat| && fat' == fat[o.chains[s][|o.chains[s]| - 1] := c]
    ensures ObjectsOk(fat', With(o, s, o.chains[s] + [c]))
  {
    var ch := o.chains[s];
    var last := ch[|ch| - 1];
    assert ObjectAt(fat, o, s);
    Link(fat, ch, c);
    var o' := With(o, s, ch + [c]);
    forall t: nat ensures ObjectAt(fat', o', t) {
      assert ObjectAt(fat, o, t);
      if t in o.chains && t != s {
        assert last in ch;
        ChainFrame(fat, fat', o.chains[t]);
      }
    }
  }

  ghost function Without(o: Objects, s: nat): Objects {
    Objects(map t | t in o.chains && t != s :: o.chains[t], map c | c in o.owner && o.owner[c] != s :: o.owner[c])
  }

  /** An object's clusters given back, the others keep theirs. */
  lemma RemoveObject(fat: Fat, o: Objects, s: nat)
    requires ObjectsOk(fat, o) && s in o.chains
    ensures ObjectsOk(Freed(fat, o.chains[s]), Without(o, s))
  {
    var o', ch := Without(o, s), o.chains[s];
    assert ObjectAt(fat, o, s);
    forall t: nat ensures ObjectAt(Freed(fat, ch), o', t) {
      assert ObjectAt(fat, o, t);
      if t in o'.chains {
        FreedFrame(fat, ch, o.chains[t]);
      }
    }
  }

  // ---------- free clusters ----------

  ghost function FreeFrom(fat: Fat, c: nat): nat
    decreases |fat| - c
  {
    if c >= |fat| then 0 else (if fat[c] == 0 then 1 else 0) + FreeFrom(fat, c + 1)
  }

  ghost function FreeCount(fat: Fat): nat {
    FreeFrom(fat, 2)
  }

  lemma {:induction false} FreeSet(fat: Fat, k: nat, c: nat, v: nat)
    requires c < |fat|
    ensures FreeFrom(fat[c := v], k) + (if k <= c && fat[c] == 0 then 1 else 0)
         == FreeFrom(fat, k) + (if k <= c && v == 0 then 1 else 0)
    decreases |fat| - k
  {
    if k < |fat| {
      FreeSet(fat, k + 1, c, v);
    }
  }

  lemma {:induction false} NoneFree(fat: Fat, k: nat)
    ensures FreeFrom(fat, k) == 0 <==> forall c :: k <= c < |fat| ==> fat[c] != 0
    decreases |fat| - k
  {
    if k < |fat| {
      NoneFree(fat, k + 1);
    }
  }

  /** The first free cluster, or 0. */
  ghost predicate FirstFree(fat: Fat, c: nat) {
    if c == 0 then FreeCount(fat) == 0
    else 2 <= c < |fat| && fat[c] == 0 && forall k :: 2 <= k < c ==> fat[k] != 0
  }

  // ---------- walking a chain ----------

  lemma StepFree(fat: Fat, ch: Chain, i: nat)
    requires IsChain(fat, ch) && i < |ch|
    ensures ch[i] < |fat| && Freed(fat, ch[..i])[ch[i]] == fat[ch[i]]
    ensures Continues(fat[ch[i]]) == (i + 1 < |ch|) && (i + 1 < |ch| ==> fat[ch[i]] == ch[i + 1])
    ensures Freed(fat, ch[..i + 1]) == Freed(fat, ch[..i])[ch[i] := 0]
  {
    assert LinkAt(fat, ch, i) && LinkAt(fat, ch, i + 1);
    assert ch[..i + 1] == ch[..i] + [ch[i]];
  }

  lemma StepChain(fat: Fat, ch: Chain, i: nat)
    requires IsChain(fat, ch) && i < |ch|
    ensures ch[i] < |fat| && Continues(fat[ch[i]]) == (i + 1 < |ch|) && (i + 1 < |ch| ==> fat[ch[i]] == ch[i + 1])
  {
    StepFree(fat, ch, i);
  }
}
