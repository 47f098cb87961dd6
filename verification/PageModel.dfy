/** Page-table words, physical memory, and the flat map that a four-level tree denotes.
    A 64-bit word is kept as the bit fields the kernel masks out of it, so that every
    mask and shift of the source is a field access. */
module PageModel {

  const TOTAL_FRAMES: nat := 262144
  const ENTRIES: nat := 512

  // ---------- words ----------

  /** Bit 63, bits 62-12, bits 11-3, bit 2, bit 1, bit 0. */
  datatype Word = Word(nx: bool, frame: nat, avail: nat, user: bool, writable: bool, present: bool)

  type U64 = w: Word | w.frame < 0x8_0000_0000_0000 && w.avail < 512 witness ZERO_WORD

  const ZERO_WORD: Word := Word(false, 0, 0, false, false, false)

  /** A page-aligned 64-bit address: what `& ~0xFFF` leaves of a word. */
  datatype Ptr = Ptr(nx: bool, frame: nat)

  /** `w & ~0xFFF` */
  function Pointer(w: U64): Ptr {
    Ptr(w.nx, w.frame)
  }

  /** `w & ~(0xFFF | PAGE_NX)` */
  function Physical(w: U64): Ptr {
    Ptr(false, w.frame)
  }

  /** `(paddr & ~0xFFF) | (flags & (0xFFF | PAGE_NX)) | 0x01` */
  function MakePte(p: Ptr, flags: U64): U64
    requires p.frame < 0x8_0000_0000_0000
  {
    Word(p.nx || flags.nx, p.frame, flags.avail, flags.user, flags.writable, true)
  }

  /** `flags & ~0x02` */
  function ReadOnly(w: U64): U64 {
    w.(writable := false)
  }

  /** `w & ~0x04` */
  function Supervisor(w: U64): U64 {
    w.(user := false)
  }

  /** `table | 0x07` */
  function TableEntry(frame: nat): U64
    requires frame < TOTAL_FRAMES
  {
    Word(false, frame, 0, true, true, true)
  }

  /** Bit 7: the word maps a large page instead of leading to a table. */
  predicate Huge(w: U64) {
    w.avail / 16 % 2 == 1
  }

  function Bit(b: bool): nat { if b then 1 else 0 }

  /** x with the bit b appended. */
  function Push(x: nat, b: bool): nat { 2 * x + Bit(b) }

  /** The number the fields stand for. */
  function Encode(w: U64): nat {
    Push(Push(Push((Bit(w.nx) * 0x8_0000_0000_0000 + w.frame) * 512 + w.avail, w.user), w.writable), w.present)
  }

  function Address(p: Ptr): nat {
    (Bit(p.nx) * 0x8_0000_0000_0000 + p.frame) * 4096
  }

  function Decode(x: nat): U64
    requires x < 0x1_0000_0000_0000_0000
  {
    var high := x / 2 / 2 / 2;
    Word(high / 512 / 0x8_0000_0000_0000 % 2 == 1, high / 512 % 0x8_0000_0000_0000, high % 512,
         x / 2 / 2 % 2 == 1, x / 2 % 2 == 1, x % 2 == 1)
  }

  lemma PushPop(x: nat, b: bool)
    ensures Push(x, b) / 2 == x && (Push(x, b) % 2 == 1 <==> b)
    ensures x == Push(x / 2, x % 2 == 1)
  {
  }

  /** All but the three low bits. */
  function HighBits(w: U64): nat {
    (Bit(w.nx) * 0x8_0000_0000_0000 + w.frame) * 512 + w.avail
  }

  lemma EncodeBound(w: U64)
    ensures Encode(w) < 0x1_0000_0000_0000_0000
    ensures Encode(w) / 2 / 2 / 2 == HighBits(w)
    ensures Encode(w) % 2 == 1 <==> w.present
    ensures Encode(w) / 2 % 2 == 1 <==> w.writable
    ensures Encode(w) / 2 / 2 % 2 == 1 <==> w.user
  {
    var a := HighBits(w);
    var z := Push(a, w.user);
    var y := Push(z, w.writable);
    PushPop(a, w.user);
    PushPop(z, w.writable);
    PushPop(y, w.present);
    SplitHigh(Bit(w.nx), w.frame, w.avail);
  }

  /** The fields are exactly the 64 bits. */
  lemma DecodeInvertsEncode(w: U64)
    ensures Encode(w) < 0x1_0000_0000_0000_0000
    ensures Decode(Encode(w)) == w
  {
    EncodeBound(w);
    SplitHigh(Bit(w.nx), w.frame, w.avail);
  }

  lemma SplitHigh(b: nat, f: nat, n: nat)
    requires b <= 1 && f < 0x8_0000_0000_0000 && n < 512
    ensures var h := b * 0x8_0000_0000_0000 + f; var a := h * 512 + n;
      a % 512 == n && a / 512 == h && h % 0x8_0000_0000_0000 == f && h / 0x8_0000_0000_0000 == b
      && a < 0x2000_0000_0000_0000
  {
    if b == 0 {
    } else {
    }
  }

  lemma EncodeInvertsDecode(x: nat)
    requires x < 0x1_0000_0000_0000_0000
    ensures Encode(Decode(x)) == x
  {
    var y := x / 2;
    var z := y / 2;
    var a := z / 2;
    PushPop(x, false);
    PushPop(y, false);
    PushPop(z, false);
    assert a == a / 512 * 512 + a % 512;
    assert a / 512 / 0x8_0000_0000_0000 < 2;
    assert HighBits(Decode(x)) == a;
  }

  /** Field access is what the source's masks compute. */
  lemma FieldsAreMasks(w: U64)
    ensures Address(Pointer(w)) == Encode(w) - Encode(w) % 4096
    ensures Address(Physical(w)) == Encode(w) % 0x8000_0000_0000_0000 - Encode(w) % 4096
    ensures w.present <==> Encode(w) % 2 == 1
  {
    var n := Push(Push(Push(w.avail, w.user), w.writable), w.present);
    assert Encode(w) == (Bit(w.nx) * 0x8_0000_0000_0000 + w.frame) * 4096 + n;
    SplitWord(Bit(w.nx), w.frame, n);
    PushPop(Encode(w) / 2, w.present);
  }

  /** Bits 11 to 0. */
  function LowBits(w: U64): nat {
    8 * w.avail + 4 * Bit(w.user) + 2 * Bit(w.writable) + Bit(w.present)
  }

  lemma EncodeSplits(w: U64)
    ensures Encode(w) == Address(Pointer(w)) + LowBits(w) && Encode(w) % 4096 == LowBits(w)
  {
    SplitWord(Bit(w.nx), w.frame, LowBits(w));
  }

  /** A new table's entry is the address of its frame with the present, writable and user bits. */
  lemma TableEntryIs(f: nat)
    requires f < TOTAL_FRAMES
    ensures Encode(TableEntry(f)) == 4096 * f + 7
  {
  }

  /** A leaf is the page's address with the caller's flags and the present bit. */
  lemma MakePteIs(p: Ptr, flags: U64)
    requires p.frame < 0x8_0000_0000_0000
    ensures Encode(MakePte(p, flags)) == Address(Ptr(p.nx || flags.nx, p.frame)) + Encode(flags) % 4096 / 2 * 2 + 1
  {
    EncodeSplits(flags);
    EncodeSplits(MakePte(p, flags));
    PushPop(4 * flags.avail + 2 * Bit(flags.user) + Bit(flags.writable), flags.present);
  }

  /** Read-only is the number without its bit of weight two. */
  lemma ReadOnlyIs(w: U64)
    ensures Encode(ReadOnly(w)) == Encode(w) - 2 * (Encode(w) / 2 % 2)
  {
    EncodeSplits(w);
    EncodeSplits(ReadOnly(w));
    EncodeBound(w);
  }

  lemma SplitWord(b: nat, f: nat, n: nat)
    requires b <= 1 && f < 0x8_0000_0000_0000 && n < 4096
    ensures ((b * 0x8_0000_0000_0000 + f) * 4096 + n) % 4096 == n
    ensures ((b * 0x8_0000_0000_0000 + f) * 4096 + n) % 0x8000_0000_0000_0000 == f * 4096 + n
  {
    if b == 0 {
    } else {
    }
  }

  /** The frame number free_frame derives from a pointer does not see bit 63. */
  lemma FrameNumberDropsNx(p: Ptr)
    ensures Address(p) / 4096 % 0x1_0000_0000 == p.frame % 0x1_0000_0000
  {
    var h := Bit(p.nx) * 0x8_0000_0000_0000 + p.frame;
    assert Address(p) == h * 4096;
  }

  // ---------- memory ----------

  type Page = p: seq<U64> | |p| == 512 witness seq(512, _ => ZERO_WORD)
  type Memory = seq<Page>

  const ZERO_PAGE: Page := seq(512, _ => ZERO_WORD)

  // ---------- private virtual pages ----------

  /** Virtual page numbers of the private region: PML4 index 0, PDPT index 2 to 511. */
  const LO: nat := 2 * 262144
  const HI: nat := 512 * 262144

  datatype Key = Key(root: nat, vpn: nat)

  function I3(v: nat): nat { v / 262144 }
  function I2(v: nat): nat { v / 512 % 512 }
  function I1(v: nat): nat { v % 512 }

  predicate Private(v: nat) { LO <= v < HI }

  /** The private addresses are those from 2 GB up to 512 GB. */
  lemma PrivateIs(vaddr: nat)
    ensures Private(vaddr / 4096) <==> 0x8000_0000 <= vaddr < 0x80_0000_0000
  {
  }

  // ---------- the walk ----------

  function Entry(mem: Memory, f: nat, i: nat): U64 {
    if f < |mem| && i < 512 then mem[f][i] else ZERO_WORD
  }

  /** The PDPT, page directory and page table the walk of page v reaches. */
  function Pdpt(mem: Memory, r: nat): nat {
    Entry(mem, r, 0).frame
  }

  function HasPd(mem: Memory, r: nat, v: nat): bool {
    Entry(mem, r, 0).present && Entry(mem, Pdpt(mem, r), I3(v)).present
  }

  function Pd(mem: Memory, r: nat, v: nat): nat {
    Entry(mem, Pdpt(mem, r), I3(v)).frame
  }

  function HasPt(mem: Memory, r: nat, v: nat): bool {
    HasPd(mem, r, v) && Entry(mem, Pd(mem, r, v), I2(v)).present
  }

  function Pt(mem: Memory, r: nat, v: nat): nat {
    Entry(mem, Pd(mem, r, v), I2(v)).frame
  }

  /** The leaf word of page v in the tree rooted at r; ZERO_WORD when a level is missing. */
  function Lookup(mem: Memory, r: nat, v: nat): U64 {
    if HasPt(mem, r, v) then Entry(mem, Pt(mem, r, v), I1(v)) else ZERO_WORD
  }

  // ---------- what ring 3 may do ----------

  datatype Rights = Rights(read: bool, write: bool, run: bool)

  const NOTHING: Rights := Rights(false, false, false)

  function RightsOf(w: U64): Rights {
    var reach := w.present && w.user;
    Rights(reach, reach && w.writable, reach && !w.nx)
  }

  function Both(a: Rights, b: Rights): Rights {
    Rights(a.read && b.read, a.write && b.write, a.run && b.run)
  }

  /** A page of the 48-bit address space: what every word on the processor's walk allows. */
  function Ring3(mem: Memory, r: nat, v: nat): Rights {
    var w4 := Entry(mem, r, v / HI);
    var w3 := Entry(mem, w4.frame, I3(v) % 512);
    var w2 := Entry(mem, w3.frame, I2(v));
    var w1 := Entry(mem, w2.frame, I1(v));
    var upper := Both(RightsOf(w4), RightsOf(w3));
    if Huge(w3) then upper
    else if Huge(w2) then Both(upper, RightsOf(w2))
    else Both(Both(upper, RightsOf(w2)), RightsOf(w1))
  }

  // ---------- what each frame is for ----------

  /** Table(level, ...): level 3 is a PDPT, 2 a page directory, 1 a page table; it hangs at
      `index` of `parent`, and covers the pages whose number starts with `base`. */
  datatype Role =
    | Kernel
    | Data
    | Root
    | Table(level: nat, root: nat, parent: nat, index: nat, base: nat)

  datatype Option<T> = None | Some(value: T)

  /** The role of the table that slot i of table frame f points to. */
  function ChildRole(f: nat, role: Role, i: nat): Option<Role> {
    match role
    case Root => if i == 0 then Some(Table(3, f, f, 0, 0)) else None
    case Table(level, root, _, _, base) =>
      if level == 3 && i >= 2 then Some(Table(2, root, f, i, i))
      else if level == 2 then Some(Table(1, root, f, i, base * 512 + i))
      else None
    case _ => None
  }

  ghost predicate LinkOk(mem: Memory, role: map<nat, Role>, f: nat, i: nat)
    requires f in role && f < |mem| && i < 512
  {
    var c := ChildRole(f, role[f], i);
    c.Some? && mem[f][i].present ==>
      && mem[f][i].user && mem[f][i].writable && !mem[f][i].nx && !Huge(mem[f][i])
      && mem[f][i].frame in role && role[mem[f][i].frame] == c.value
  }

  /** The roles are those of frames linked into trees: every present table entry leads to the
      table of that place, every root has its PDPT, and every table hangs where its role says. */
  ghost predicate TablesOk(mem: Memory, role: map<nat, Role>) {
    && |mem| == TOTAL_FRAMES
    && (forall f :: f in role ==> f < TOTAL_FRAMES)
    && (forall f, i :: f in role && 0 <= i < 512 ==> LinkOk(mem, role, f, i))
    && (forall f :: f in role && role[f].Root? ==> mem[f][0].present)
    && (forall f {:trigger HangsAt(mem, role, f, role[f])} :: f in role && role[f].Table? ==> HangsAt(mem, role, f, role[f]))
  }

  ghost predicate HangsAt(mem: Memory, role: map<nat, Role>, f: nat, t: Role)
    requires |mem| == TOTAL_FRAMES && t.Table?
  {
    && t.parent in role && t.parent < TOTAL_FRAMES && t.index < 512
    && ChildRole(t.parent, role[t.parent], t.index) == Some(t)
    && mem[t.parent][t.index].present && mem[t.parent][t.index].frame == f
  }

  ghost predicate IsRoot(role: map<nat, Role>, r: nat) {
    r in role && role[r].Root?
  }

  lemma WalkRoles(mem: Memory, role: map<nat, Role>, r: nat, v: nat)
    requires TablesOk(mem, role) && IsRoot(role, r) && Private(v)
    ensures Entry(mem, r, 0).present
    ensures Pdpt(mem, r) in role && role[Pdpt(mem, r)] == Table(3, r, r, 0, 0)
    ensures HasPd(mem, r, v) ==> Pd(mem, r, v) in role && role[Pd(mem, r, v)] == Table(2, r, Pdpt(mem, r), I3(v), I3(v))
    ensures HasPt(mem, r, v) ==> Pt(mem, r, v) in role && role[Pt(mem, r, v)] == Table(1, r, Pd(mem, r, v), I2(v), v / 512)
  {
    assert LinkOk(mem, role, r, 0);
    var f := Pdpt(mem, r);
    assert LinkOk(mem, role, f, I3(v));
    if HasPd(mem, r, v) {
      assert LinkOk(mem, role, Pd(mem, r, v), I2(v));
      assert I3(v) * 512 + I2(v) == v / 512;
    }
  }

  // ---------- what single memory writes do to every translation ----------

  /** Writing slot i1 of the page table of page v changes the leaf of v alone. */
  lemma LeafWrite(mem: Memory, role: map<nat, Role>, r: nat, v: nat, w: U64)
    requires TablesOk(mem, role) && IsRoot(role, r) && Private(v) && HasPt(mem, r, v)
    ensures Pt(mem, r, v) < TOTAL_FRAMES
    ensures var pt := Pt(mem, r, v);
      var mem' := mem[pt := mem[pt][I1(v) := w]];
      && TablesOk(mem', role)
      && (forall r': nat, v': nat {:trigger Lookup(mem', r', v')} :: IsRoot(role, r') && Private(v') ==>
            Lookup(mem', r', v') == if r' == r && v' == v then w else Lookup(mem, r', v'))
  {
    WalkRoles(mem, role, r, v);
    var pt := Pt(mem, r, v);
    var mem' := mem[pt := mem[pt][I1(v) := w]];
    LeafWriteKeepsTables(mem, role, pt, I1(v), w);
    forall r': nat, v': nat | IsRoot(role, r') && Private(v')
      ensures Lookup(mem', r', v') == if r' == r && v' == v then w else Lookup(mem, r', v')
    {
      WalkRoles(mem, role, r', v');
      SamePath(mem, mem', role, r', v', pt);
      assert v == v / 512 * 512 + I1(v) && v' == v' / 512 * 512 + I1(v');
    }
  }

  lemma LeafWriteKeepsTables(mem: Memory, role: map<nat, Role>, pt: nat, i: nat, w: U64)
    requires TablesOk(mem, role) && pt in role && role[pt].Table? && role[pt].level == 1 && i < 512
    ensures TablesOk(mem[pt := mem[pt][i := w]], role)
  {
    var mem' := mem[pt := mem[pt][i := w]];
    forall f, j | f in role && 0 <= j < 512 ensures LinkOk(mem', role, f, j) {
      assert LinkOk(mem, role, f, j);
    }
    forall f | f in role && role[f].Table? ensures HangsAt(mem', role, f, role[f]) {
      assert HangsAt(mem, role, f, role[f]);
    }
  }

  /** A write below the page directories leaves every walk down to the page tables alone. */
  lemma SamePath(mem: Memory, mem': Memory, role: map<nat, Role>, r: nat, v: nat, changed: nat)
    requires TablesOk(mem, role) && IsRoot(role, r) && Private(v) && |mem'| == |mem|
    requires forall f :: 0 <= f < |mem| && f != changed ==> mem'[f] == mem[f]
    requires changed in role ==> role[changed].Data? || (role[changed].Table? && role[changed].level == 1)
    ensures HasPt(mem', r, v) == HasPt(mem, r, v)
    ensures HasPt(mem, r, v) ==> Pt(mem', r, v) == Pt(mem, r, v)
  {
    WalkRoles(mem, role, r, v);
  }

  /** Writing a frame that is no table changes no translation. */
  lemma DataWrite(mem: Memory, role: map<nat, Role>, f: nat, page: Page)
    requires TablesOk(mem, role) && f < TOTAL_FRAMES && (f in role ==> role[f].Data?)
    ensures TablesOk(mem[f := page], role)
    ensures forall r: nat, v: nat {:trigger Lookup(mem[f := page], r, v)} :: IsRoot(role, r) && Private(v) ==> Lookup(mem[f := page], r, v) == Lookup(mem, r, v)
  {
    var mem' := mem[f := page];
    forall g, j | g in role && 0 <= j < 512 ensures LinkOk(mem', role, g, j) {
      assert LinkOk(mem, role, g, j);
    }
    forall g | g in role && role[g].Table? ensures HangsAt(mem', role, g, role[g]) {
      assert HangsAt(mem, role, g, role[g]);
    }
    forall r: nat, v: nat | IsRoot(role, r) && Private(v) ensures Lookup(mem', r, v) == Lookup(mem, r, v) {
      WalkRoles(mem, role, r, v);
      SamePath(mem, mem', role, r, v, f);
    }
  }

  /** Hanging a zeroed fresh frame at an absent slot of a table changes no translation. */
  lemma LinkTable(mem: Memory, role: map<nat, Role>, f: nat, i: nat, newFrame: nat)
    requires TablesOk(mem, role) && f in role && i < 512 && newFrame < TOTAL_FRAMES && newFrame !in role
    requires role[f].Table? && ChildRole(f, role[f], i).Some? && !mem[f][i].present
    ensures var mem' := mem[newFrame := ZERO_PAGE][f := mem[f][i := TableEntry(newFrame)]];
      var role' := role[newFrame := ChildRole(f, role[f], i).value];
      && TablesOk(mem', role')
      && (forall r: nat, v: nat {:trigger Lookup(mem', r, v)} :: IsRoot(role, r) && Private(v) ==> Lookup(mem', r, v) == Lookup(mem, r, v))
  {
    var mem' := mem[newFrame := ZERO_PAGE][f := mem[f][i := TableEntry(newFrame)]];
    var role' := role[newFrame := ChildRole(f, role[f], i).value];
    LinkKeepsTables(mem, role, f, i, newFrame);
    forall r: nat, v: nat | IsRoot(role, r) && Private(v) ensures Lookup(mem', r, v) == Lookup(mem, r, v) {
      WalkRoles(mem, role, r, v);
      WalkRoles(mem', role', r, v);
      LinkKeepsLookup(mem, role, f, i, newFrame, r, v);
    }
  }

  lemma LinkKeepsTables(mem: Memory, role: map<nat, Role>, f: nat, i: nat, newFrame: nat)
    requires TablesOk(mem, role) && f in role && i < 512 && newFrame < TOTAL_FRAMES && newFrame !in role
    requires role[f].Table? && ChildRole(f, role[f], i).Some? && !mem[f][i].present
    ensures TablesOk(mem[newFrame := ZERO_PAGE][f := mem[f][i := TableEntry(newFrame)]],
                     role[newFrame := ChildRole(f, role[f], i).value])
  {
    var mem' := mem[newFrame := ZERO_PAGE][f := mem[f][i := TableEntry(newFrame)]];
    var role' := role[newFrame := ChildRole(f, role[f], i).value];
    forall g, j | g in role' && 0 <= j < 512 ensures LinkOk(mem', role', g, j) {
      if g != newFrame { assert LinkOk(mem, role, g, j); }
    }
    forall g | g in role' && role'[g].Table? ensures HangsAt(mem', role', g, role'[g]) {
      if g != newFrame { assert HangsAt(mem, role, g, role[g]); }
    }
  }

  lemma LinkKeepsLookup(mem: Memory, role: map<nat, Role>, f: nat, i: nat, newFrame: nat, r: nat, v: nat)
    requires TablesOk(mem, role) && f in role && i < 512 && newFrame < TOTAL_FRAMES && newFrame !in role
    requires role[f].Table? && ChildRole(f, role[f], i).Some? && !mem[f][i].present
    requires IsRoot(role, r) && Private(v)
    ensures Lookup(mem[newFrame := ZERO_PAGE][f := mem[f][i := TableEntry(newFrame)]], r, v) == Lookup(mem, r, v)
  {
    WalkRoles(mem, role, r, v);
  }
}
