/** What a copy-on-write fork costs, told from the state before it: frames for the child's tables, and slots for
    the frames that become shared. */
module ForkCost {
  import opened PageModel
  import opened Cow
  import opened CowModel
  import opened Paging

  /** Some page of space r in [lo, hi) is mapped. */
  ghost predicate LeafIn(flat: Flat, r: nat, lo: nat, hi: nat) {
    exists u: nat :: lo <= u < hi && Key(r, u) in flat
  }

  /** The tables page v needs that no earlier page of the space needs. */
  ghost function NewTables(flat: Flat, r: nat, v: nat): nat {
    if LeafIn(flat, r, v / 512 * 512, v) then 0 else if LeafIn(flat, r, v / 262144 * 262144, v) then 1 else 2
  }

  /** The page tables and directories that the pages of space r below cur need. */
  ghost function TablesTo(flat: Flat, r: nat, cur: nat): nat {
    if cur == 0 then 0
    else TablesTo(flat, r, cur - 1) + if Key(r, cur - 1) in flat then NewTables(flat, r, cur - 1) else 0
  }

  ghost predicate Untracked(flat: Flat, refs: map<Ptr, int>, k: Key) {
    k in flat && !Tracked(refs, flat[k].frame)
  }

  /** The pages of space r below cur whose frame has no slot yet. */
  ghost function SlotsTo(flat: Flat, refs: map<Ptr, int>, r: nat, cur: nat): nat {
    if cur == 0 then 0 else SlotsTo(flat, refs, r, cur - 1) + if Untracked(flat, refs, Key(r, cur - 1)) then 1 else 0
  }

  lemma {:induction false} CostsGrow(flat: Flat, refs: map<Ptr, int>, r: nat, a: nat, b: nat)
    requires a <= b
    ensures TablesTo(flat, r, a) <= TablesTo(flat, r, b) && SlotsTo(flat, refs, r, a) <= SlotsTo(flat, refs, r, b)
  {
    if a < b {
      CostsGrow(flat, refs, r, a, b - 1);
    }
  }

  lemma {:induction false} CostsSkip(flat: Flat, refs: map<Ptr, int>, r: nat, a: nat, b: nat)
    requires a <= b && !LeafIn(flat, r, a, b)
    ensures TablesTo(flat, r, a) == TablesTo(flat, r, b) && SlotsTo(flat, refs, r, a) == SlotsTo(flat, refs, r, b)
  {
    if a < b {
      CostsSkip(flat, refs, r, a, b - 1);
    }
  }

  // ---------- the state before a fork, and the resources spent so far ----------

  datatype Start = Start(mem: Memory, role: map<nat, Role>, flat: Flat, refs: map<Ptr, int>, frames: nat)

  function Min(a: nat, b: nat): nat {
    if a <= b then a else b
  }

  /** The child has the tables of the pages shared so far. */
  ghost predicate BuiltAt(role: map<nat, Role>, flat: Flat, parent: nat, child: nat, cur: nat, b: nat) {
    && (Spot(1, child, b) in Spots(role) <==> LeafIn(flat, parent, b * 512, Min(b * 512 + 512, cur)))
    && (Spot(2, child, b) in Spots(role) <==> LeafIn(flat, parent, b * 262144, Min(b * 262144 + 262144, cur)))
  }

  /** Only the child has new tables. */
  ghost predicate OthersBuilt(role0: map<nat, Role>, role: map<nat, Role>, child: nat) {
    forall x: Spot {:trigger x in Spots(role)} :: x.root != child || x.level == 3 ==> (x in Spots(role) <==> x in Spots(role0))
  }

  ghost predicate FrameBelow(flat: Flat, r: nat, cur: nat, f: nat) {
    exists u: nat :: u < cur && Key(r, u) in flat && flat[Key(r, u)].frame == f
  }

  /** The frames of the pages shared so far are tracked, beside those that were. */
  ghost predicate TrackAt(flat: Flat, refs0: map<Ptr, int>, refs: map<Ptr, int>, parent: nat, cur: nat, f: nat) {
    Tracked(refs, f) <==> Tracked(refs0, f) || FrameBelow(flat, parent, cur, f)
  }

  ghost predicate Spent(role: map<nat, Role>, free: set<nat>, refs: map<Ptr, int>, s: Start, parent: nat, child: nat, cur: nat) {
    && |free| + TablesTo(s.flat, parent, cur) == s.frames
    && |refs| == |s.refs| + SlotsTo(s.flat, s.refs, parent, cur) && OthersBuilt(s.role, role, child)
    && (forall b: nat {:trigger BuiltAt(role, s.flat, parent, child, cur, b)} :: BuiltAt(role, s.flat, parent, child, cur, b))
    && (forall f: nat {:trigger TrackAt(s.flat, s.refs, refs, parent, cur, f)} :: TrackAt(s.flat, s.refs, refs, parent, cur, f))
  }

  lemma LeafInSkip(flat: Flat, r: nat, lo: nat, hi: nat, a: nat, b: nat)
    requires a <= b && !LeafIn(flat, r, a, b)
    ensures LeafIn(flat, r, lo, Min(hi, b)) <==> LeafIn(flat, r, lo, Min(hi, a))
  {
    if LeafIn(flat, r, lo, Min(hi, b)) {
      var u: nat :| lo <= u < Min(hi, b) && Key(r, u) in flat;
      assert u < a;
    }
    if LeafIn(flat, r, lo, Min(hi, a)) {
      var u: nat :| lo <= u < Min(hi, a) && Key(r, u) in flat;
      assert u < Min(hi, b);
    }
  }

  lemma SpentSkip(role: map<nat, Role>, free: set<nat>, refs: map<Ptr, int>, s: Start, parent: nat, child: nat, a: nat, b: nat)
    requires a <= b && Spent(role, free, refs, s, parent, child, a) && !LeafIn(s.flat, parent, a, b)
    ensures Spent(role, free, refs, s, parent, child, b)
  {
    CostsSkip(s.flat, s.refs, parent, a, b);
    forall x: nat ensures BuiltAt(role, s.flat, parent, child, b, x) {
      assert BuiltAt(role, s.flat, parent, child, a, x);
      LeafInSkip(s.flat, parent, x * 512, x * 512 + 512, a, b);
      LeafInSkip(s.flat, parent, x * 262144, x * 262144 + 262144, a, b);
    }
    forall f: nat ensures TrackAt(s.flat, s.refs, refs, parent, b, f) {
      assert TrackAt(s.flat, s.refs, refs, parent, a, f);
      FrameSkip(s.flat, parent, a, b, f);
    }
  }

  lemma FrameSkip(flat: Flat, r: nat, a: nat, b: nat, f: nat)
    requires a <= b && !LeafIn(flat, r, a, b)
    ensures FrameBelow(flat, r, b, f) <==> FrameBelow(flat, r, a, f)
  {
    if FrameBelow(flat, r, b, f) {
      var u: nat :| u < b && Key(r, u) in flat && flat[Key(r, u)].frame == f;
      assert u < a;
    }
  }

  /** The child lacks for page v exactly the tables no earlier page needed. */
  lemma UnbuiltIs(role: map<nat, Role>, free: set<nat>, refs: map<Ptr, int>, s: Start, parent: nat, child: nat, v: nat)
    requires Spent(role, free, refs, s, parent, child, v)
    ensures Unbuilt(role, child, v) == NewTables(s.flat, parent, v)
  {
    assert BuiltAt(role, s.flat, parent, child, v, v / 512) && BuiltAt(role, s.flat, parent, child, v, I3(v));
  }

  /** The parent's page v has a slot in the table just when it had one before the fork. */
  lemma StillUntracked(role: map<nat, Role>, free: set<nat>, refs: map<Ptr, int>, s: Start, parent: nat, child: nat, v: nat)
    requires Spent(role, free, refs, s, parent, child, v) && RefsOk(s.flat, s.refs) && Key(parent, v) in s.flat
    ensures Tracked(refs, s.flat[Key(parent, v)].frame) <==> Tracked(s.refs, s.flat[Key(parent, v)].frame)
  {
    var f := s.flat[Key(parent, v)].frame;
    assert TrackAt(s.flat, s.refs, refs, parent, v, f);
    if FrameBelow(s.flat, parent, v, f) {
      var u: nat :| u < v && Key(parent, u) in s.flat && s.flat[Key(parent, u)].frame == f;
      assert SameFrame(s.flat, Key(parent, u), Key(parent, v));
    }
  }

  lemma LeafInNext(flat: Flat, r: nat, lo: nat, hi: nat, v: nat)
    requires Key(r, v) in flat
    ensures LeafIn(flat, r, lo, Min(hi, v + 1)) <==> LeafIn(flat, r, lo, Min(hi, v)) || lo <= v < hi
  {
    var next := v + 1;
    if LeafIn(flat, r, lo, Min(hi, next)) {
      var u: nat :| lo <= u < Min(hi, next) && Key(r, u) in flat;
      assert u < Min(hi, v) || u == v;
    }
    if LeafIn(flat, r, lo, Min(hi, v)) {
      var u: nat :| lo <= u < Min(hi, v) && Key(r, u) in flat;
      assert u < Min(hi, next);
    }
    assert lo <= v < hi ==> v < Min(hi, next);
  }

  lemma BuiltNext(role: map<nat, Role>, role': map<nat, Role>, flat: Flat, parent: nat, child: nat, v: nat, b: nat)
    requires BuiltAt(role, flat, parent, child, v, b) && Key(parent, v) in flat
    requires Spots(role') == Spots(role) + {Spot(2, child, I3(v)), Spot(1, child, v / 512)}
    ensures BuiltAt(role', flat, parent, child, v + 1, b)
  {
    LeafInNext(flat, parent, b * 512, b * 512 + 512, v);
    LeafInNext(flat, parent, b * 262144, b * 262144 + 262144, v);
    assert b == v / 512 <==> b * 512 <= v < b * 512 + 512;
    assert b == I3(v) <==> b * 262144 <= v < b * 262144 + 262144;
  }

  lemma TrackNext(flat: Flat, refs0: map<Ptr, int>, refs: map<Ptr, int>, parent: nat, v: nat, f: nat)
    requires TrackAt(flat, refs0, refs, parent, v, f) && Key(parent, v) in flat
    ensures TrackAt(flat, refs0, TrackedOnce(refs, Physical(flat[Key(parent, v)])), parent, v + 1, f)
  {
    var next := v + 1;
    if FrameBelow(flat, parent, next, f) {
      var u: nat :| u < next && Key(parent, u) in flat && flat[Key(parent, u)].frame == f;
      assert u < v || u == v;
    }
    if FrameBelow(flat, parent, v, f) {
      var u: nat :| u < v && Key(parent, u) in flat && flat[Key(parent, u)].frame == f;
      assert u < next;
    }
  }

  /** One more page shared. */
  lemma SpentShare(role: map<nat, Role>, free: set<nat>, refs: map<Ptr, int>, s: Start, parent: nat, child: nat, v: nat,
                   role': map<nat, Role>, free': set<nat>)
    requires Spent(role, free, refs, s, parent, child, v) && RefsOk(s.flat, s.refs) && Key(parent, v) in s.flat
    requires PathBuilt(role, free, role', free', child, v)
    ensures Spent(role', free', TrackedOnce(refs, Physical(s.flat[Key(parent, v)])), s, parent, child, v + 1)
  {
    UnbuiltIs(role, free, refs, s, parent, child, v);
    StillUntracked(role, free, refs, s, parent, child, v);
    var next, refs' := v + 1, TrackedOnce(refs, Physical(s.flat[Key(parent, v)]));
    forall b: nat ensures BuiltAt(role', s.flat, parent, child, next, b) {
      assert BuiltAt(role, s.flat, parent, child, v, b);
      BuiltNext(role, role', s.flat, parent, child, v, b);
    }
    forall f: nat ensures TrackAt(s.flat, s.refs, refs', parent, next, f) {
      assert TrackAt(s.flat, s.refs, refs, parent, v, f);
      TrackNext(s.flat, s.refs, refs, parent, v, f);
    }
  }
}
