/** The FAT32 driver over one volume. */
module Fat32 {
  import opened FatModel
  import opened FatDirs
  import opened FatTrees
  import opened FatStores
  import opened FatRooms
  import opened FatWrites

  /** The low 28 bits of each word of the allocation table. */
  ghost function Low28(words: seq<nat>): (f: Fat)
    ensures |f| == |words| && forall c :: 0 <= c < |words| ==> f[c] == words[c] % ENTRIES
  {
    seq(|words|, c requires 0 <= c < |words| => words[c] % ENTRIES)
  }

  class Volume {
    /** A word for each cluster number, and the bytes of each cluster. */
    const fat: array<nat>
    const data: array<Bytes>
    const n: nat
    const root: nat
    ghost var t: Tree

    ghost predicate Sized()
      reads fat, data
    {
      data.Length == fat.Length <= EOC_MIN && n > 0 && WellSized(data[..], n)
    }

    ghost function Table(): Fat
      reads fat
    {
      Low28(fat[..])
    }

    ghost predicate Valid()
      reads this, fat, data
    {
      Sized() && t.root == root && Good(Table(), data[..], n, t)
    }

    /** A freshly formatted volume: the root directory in cluster 2, everything else free. */
    constructor (clusters: nat, slots: nat)
      requires 3 <= clusters <= EOC_MIN && slots > 0
      ensures Valid() && fresh(fat) && fresh(data) && fat.Length == clusters && n == slots
      ensures forall c :: 3 <= c < clusters ==> Table()[c] == 0
      ensures forall d: nat, name: Bytes :: View(data[..], n, t, d, name) == Absent
    {
      fat := new nat[clusters](i => if i < 3 then EOC else 0);
      data := new Bytes[clusters](i => Zeros(SLOT * slots));
      n, root := slots, 2;
      t := Blankest();
      new;
      FormattedOk(Table(), data[..], n);
    }

    method GetFatEntry(c: nat) returns (v: nat)
      requires c < fat.Length
      ensures v == Table()[c]
    {
      v := fat[c] % ENTRIES;
    }

    /** The top four bits of the word stay. */
    method SetFatEntry(c: nat, v: nat)
      requires c < fat.Length && v < ENTRIES
      modifies fat
      ensures Table() == old(Table())[c := v] && fat[c] / ENTRIES == old(fat[c] / ENTRIES)
    {
      fat[c] := fat[c] / ENTRIES * ENTRIES + v;
    }

    method AllocCluster() returns (c: nat)
      requires Sized()
      modifies fat, data
      ensures Sized() && FirstFree(old(Table()), c)
      ensures c == 0 ==> fat[..] == old(fat[..]) && data[..] == old(data[..])
      ensures c != 0 ==> Table() == old(Table())[c := EOC] && data[..] == old(data[..])[c := Zeros(SLOT * n)]
    {
      c := 2;
      while c < fat.Length && fat[c] % ENTRIES != 0
        invariant 2 <= c && forall k :: 2 <= k < c && k < fat.Length ==> Table()[k] != 0
      {
        c := c + 1;
      }
      if c < fat.Length {
        SetFatEntry(c, EOC);
        data[c] := Zeros(SLOT * n);
      } else {
        NoneFree(Table(), 2);
        c := 0;
      }
    }

    method FreeClusterChain(start: nat, ghost ch: Chain)
      requires IsChain(Table(), ch) && ch[0] == start
      modifies fat
      ensures Table() == Freed(old(Table()), ch)
    {
      var cluster, going := start, Continues(start);
      ghost var i := 0;
      ghost var was := Table();
      InRange(was, ch, start);
      while going
        invariant 0 <= i <= |ch| && going == (i < |ch|) && (going ==> cluster == ch[i])
        invariant Table() == Freed(was, ch[..i])
        decreases |ch| - i
      {
        StepFree(was, ch, i);
        var next := GetFatEntry(cluster);
        SetFatEntry(cluster, 0);
        i := i + 1;
        going := Continues(next);
        cluster := next;
      }
      assert ch[..i] == ch;
    }

    // ---------- searching a directory ----------

    /** The directory's one entry of that name, or none. */
    method FindEntryInDir(d: nat, name: Bytes) returns (found: bool, c: nat, j: nat, e: Slot, ghost i: nat)
      requires Valid() && d in t.depth
      ensures found ==> Hit(data[..], n, t, d, name, Pos(i, j)) && c == t.o.chains[d][i] && c < data.Length
                        && e == SlotAt(data[..], t.o.chains[d], Pos(i, j))
      ensures !found ==> Missing(data[..], n, t, d, name)
    {
      ghost var ch := t.o.chains[d];
      DirChain(Table(), t, d);
      c, j, i, e := d, 0, 0, Zeros(SLOT);
      found := false;
      var going := true;
      while going
        invariant i <= |ch| && (going ==> !found && i < |ch| && c == ch[i])
        invariant Passed(data[..], n, t, d, name, i) || (!going && !found)
        invariant found ==> i < |ch| && c == ch[i] && c < data.Length && e == SlotAt(data[..], ch, Pos(i, j))
                            && Hit(data[..], n, t, d, name, Pos(i, j))
        invariant !going && !found ==> Missing(data[..], n, t, d, name)
        decreases |ch| - i + if going then 1 else 0
      {
        StepChain(Table(), ch, i);
        var stop;
        stop, found, j := ScanForName(data[c], n, name);
        if found {
          e := SlotIn(data[c], j);
          going := false;
        } else if stop {
          MissingFrom(Table(), data[..], n, t, d, name, i, j);
          going := false;
        } else {
          PassCluster(data[..], n, t, d, name, i);
          var next := GetFatEntry(c);
          c, i := next, i + 1;
          going := Continues(next);
          AllPassed(data[..], n, t, d, name, i);
        }
      }
    }

    /** A deleted slot or the first unused one, in a chain lengthened by one cluster if every slot is taken. */
    method FindFreeDirSlot(d: nat) returns (ok: bool, c: nat, j: nat, ghost i: nat, ghost extra: nat)
      requires Valid() && d in t.depth
      modifies this`t, fat, data
      ensures Valid()
      ensures ok <==> Roomy(old(data[..]), n, old(t), d) || FreeCount(old(Table())) > 0
      ensures extra == 0 ==> fat[..] == old(fat[..]) && data[..] == old(data[..]) && t == old(t)
      ensures extra != 0 ==> ok && !Roomy(old(data[..]), n, old(t), d) && FirstFree(old(Table()), extra)
      ensures extra != 0 ==> Lengthens(old(Table()), old(data[..]), n, old(t), d, extra, Table(), data[..], t)
      ensures ok ==> d in t.depth && Room(data[..], n, t, d, Pos(i, j)) && c == t.o.chains[d][i] && c < data.Length
      ensures ok ==> FreeCount(Table()) + Extra(old(data[..]), n, old(t), d) == FreeCount(old(Table()))
      ensures ok ==> Opens(old(data[..]), n, old(t), data[..], t, d)
    {
      ghost var table0, data0, t0 := Table(), data[..], t;
      var last;
      ok, c, j, last, i := ScanDir(d);
      extra := 0;
      if !ok {
        c := AppendCluster(d, last);
        ok, j, i, extra := c != 0, 0, |old(t).o.chains[d]|, c;
        if ok {
          OpensMore(table0, data0, n, t0, d, c, Table(), data[..]);
          LengthensCount(table0, data0, n, t0, d, c, Table(), data[..]);
        }
      } else {
        OpensHere(table0, data0, n, t0, d);
      }
    }

    method AppendCluster(d: nat, last: nat) returns (c: nat)
      requires Valid() && d in t.depth && !Roomy(data[..], n, t, d)
      requires t.o.chains[d] != [] && last == t.o.chains[d][|t.o.chains[d]| - 1]
      modifies this`t, fat, data
      ensures Valid() && FirstFree(old(Table()), c) && (c != 0 <==> FreeCount(old(Table())) > 0)
      ensures c == 0 ==> fat[..] == old(fat[..]) && data[..] == old(data[..]) && t == old(t)
      ensures c != 0 ==> Lengthens(old(Table()), old(data[..]), n, old(t), d, c, Table(), data[..], t)
      ensures c != 0 ==> c < data.Length && Room(data[..], n, t, d, Pos(|old(t).o.chains[d]|, 0))
                         && t.o.chains[d][|old(t).o.chains[d]|] == c
    {
      ghost var table0, data0, t0 := Table(), data[..], t;
      LastInRange(table0, t0, d);
      NoneFree(table0, 2);
      c := AllocCluster();
      if c != 0 {
        SetFatEntry(last, c);
        t := Grown(t, d, c);
        Lengthen(table0, data0, n, t0, d, c, Table(), data[..]);
      }
    }

    method ScanDir(d: nat) returns (ok: bool, c: nat, j: nat, last: nat, ghost i: nat)
      requires Valid() && d in t.depth
      ensures ok <==> Roomy(data[..], n, t, d)
      ensures ok ==> Room(data[..], n, t, d, Pos(i, j)) && c == t.o.chains[d][i] && c < data.Length
      ensures !ok ==> t.o.chains[d] != [] && last == t.o.chains[d][|t.o.chains[d]| - 1]
    {
      ghost var ch := t.o.chains[d];
      DirChain(Table(), t, d);
      c, last, j, i, ok := d, d, 0, 0, false;
      var going := true;
      while going
        invariant i <= |ch| && going == (!ok && i < |ch|) && (going ==> c == ch[i])
        invariant Taken(data[..], n, t, d, i)
        invariant i > 0 && !ok ==> last == ch[i - 1]
        invariant ok ==> i < |ch| && c == ch[i] && c < data.Length && Room(data[..], n, t, d, Pos(i, j))
        decreases |ch| - i + if going then 1 else 0
      {
        StepChain(Table(), ch, i);
        last := c;
        ok, j := ScanForRoom(data[c], n);
        if ok {
          RoomHere(data[..], n, t, d, i, j);
          going := false;
        } else {
          TakeCluster(data[..], n, t, d, i);
          var next := GetFatEntry(c);
          c, i := next, i + 1;
          going := Continues(next);
        }
      }
      if ok {
        assert IsSlot(n, t, d, Pos(i, j));
      }
    }

    // ---------- storing a file's bytes ----------

    method FillCluster(c: nat, bytes: Bytes, written: nat) returns (w: nat)
      requires Sized() && c < data.Length && data[c] == Zeros(SLOT * n) && written < |bytes|
      modifies data
      ensures Sized() && written < w <= |bytes| && (w < |bytes| ==> w == written + SLOT * n) && w <= written + SLOT * n
      ensures data[..] == old(data[..])[c := data[c]] && data[c][..w - written] == bytes[written..w]
    {
      w := written;
      var b := 0;
      while b < SLOT * n && w < |bytes|
        invariant w == written + b && b <= SLOT * n && w <= |bytes|
        invariant |data[c]| == SLOT * n && data[..] == old(data[..])[c := data[c]]
        invariant data[c][..b] == bytes[written..w]
      {
        ghost var done := data[c][..b];
        data[c] := data[c][b := bytes[w]];
        assert data[c][..b + 1] == done + [bytes[w]] && bytes[written..w + 1] == bytes[written..w] + [bytes[w]];
        w, b := w + 1, b + 1;
      }
    }

    method StoreCluster(ghost table0: Fat, ghost data0: seq<Bytes>, bytes: Bytes, written: nat, first: nat, prev: nat, ghost ch: Chain)
      returns (ok: bool, c: nat, w: nat, ghost ch': Chain)
      requires Sized() && written < |bytes| && Storing(table0, data0, Table(), data[..], n, ch, bytes, written)
      requires first == (if ch == [] then 0 else ch[0]) && prev == if ch == [] then 0 else ch[|ch| - 1]
      modifies fat, data
      ensures Sized() && (ok <==> FreeCount(old(Table())) > 0)
      ensures ok ==> Storing(table0, data0, Table(), data[..], n, ch', bytes, w) && ch' == ch + [c] && c != 0
      ensures ok ==> written < w <= |bytes| && FreeCount(Table()) + 1 == FreeCount(old(Table()))
                     && Needed(|bytes| - written, SLOT * n) == 1 + Needed(|bytes| - w, SLOT * n)
      ensures !ok ==> Undone(table0, data0, Table(), data[..])
    {
      ghost var table1, data1 := Table(), data[..];
      NoneFree(table1, 2);
      c := AllocCluster();
      ok, w, ch' := c != 0, written, ch;
      if !ok {
        GiveBack(first, ch);
        StoreUndone(table0, data0, table1, data1, n, ch, bytes, written, Table());
      } else {
        LinkBehind(first, prev, c, ch, table1);
        ch' := ch + [c];
        w := FillCluster(c, bytes, written);
        StoreStep(table0, data0, table1, data1, n, ch, bytes, written, c, Table(), data[..], w);
        HangCount(table1, ch, c, Table());
        NeededStep(|bytes|, SLOT * n, written, w);
      }
    }

    /** A chain given up before any entry leads to it. */
    method GiveBack(first: nat, ghost ch: Chain)
      requires (ch != [] ==> IsChain(Table(), ch)) && first == if ch == [] then 0 else ch[0]
      modifies fat
      ensures Table() == Freed(old(Table()), ch)
    {
      if ch != [] {
        InRange(Table(), ch, ch[0]);
      }
      if first != 0 {
        FreeClusterChain(first, ch);
      } else {
        assert Freed(Table(), []) == Table();
      }
    }

    method LinkBehind(first: nat, prev: nat, c: nat, ghost ch: Chain, ghost table1: Fat)
      requires c < fat.Length == |table1| && c < EOC_MIN && Table() == table1[c := EOC] && (ch != [] ==> IsChain(table1, ch))
      requires first == (if ch == [] then 0 else ch[0]) && prev == if ch == [] then 0 else ch[|ch| - 1]
      modifies fat
      ensures Hangs(table1, ch, c, Table())
    {
      if ch != [] {
        InRange(table1, ch, ch[0]);
        InRange(table1, ch, ch[|ch| - 1]);
      }
      if first != 0 {
        SetFatEntry(prev, c);
      }
    }

    /** A new chain holding the bytes, or, when clusters run out, the table as it was. */
    method StoreBytes(bytes: Bytes) returns (ok: bool, first: nat, ghost ch: Chain)
      requires Sized()
      modifies fat, data
      ensures Sized()
      ensures ok <==> FreeCount(old(Table())) >= Needed(|bytes|, SLOT * n)
      ensures ok ==> Storing(old(Table()), old(data[..]), Table(), data[..], n, ch, bytes, |bytes|)
                     && first == (if ch == [] then 0 else ch[0]) && |ch| == Needed(|bytes|, SLOT * n)
      ensures ok ==> FreeCount(Table()) + Needed(|bytes|, SLOT * n) == FreeCount(old(Table()))
      ensures !ok ==> Undone(old(Table()), old(data[..]), Table(), data[..])
    {
      ghost var table0, data0 := Table(), data[..];
      var prev, written := 0, 0;
      ok, first, ch := true, 0, [];
      while written < |bytes| && ok
        invariant Sized() && (ok ==> Storing(table0, data0, Table(), data[..], n, ch, bytes, written))
        invariant ok ==> first == (if ch == [] then 0 else ch[0]) && prev == if ch == [] then 0 else ch[|ch| - 1]
        invariant ok && ch != [] ==> first != 0
        invariant ok ==> FreeCount(Table()) + |ch| == FreeCount(table0)
                         && |ch| + Needed(|bytes| - written, SLOT * n) == Needed(|bytes|, SLOT * n)
        invariant !ok ==> Undone(table0, data0, Table(), data[..]) && FreeCount(table0) < Needed(|bytes|, SLOT * n)
        decreases |bytes| - written, ok
      {
        var w;
        ok, prev, w, ch := StoreCluster(table0, data0, bytes, written, first, prev, ch);
        if ok {
          first, written := if first == 0 then prev else first, w;
        }
      }
    }

    // ---------- files ----------

    method WriteEntryAt(c: nat, j: nat, s: Slot)
      requires Sized() && c < data.Length && j < n
      modifies data
      ensures Sized() && |old(data[c])| == SLOT * n && data[..] == old(data[..])[c := SetSlot(old(data[c]), j, s)]
    {
      data[c] := SetSlot(data[c], j, s);
    }

    /**
     * Creates a file. It succeeds exactly when the name is new and enough clusters are free,
     * and then the name shows the bytes and exactly those clusters are taken; when it fails no table
     * entry has changed. No other name of any directory shows anything else than it did.
     */
    method WriteFile(d: nat, name: Bytes, bytes: Bytes) returns (ok: bool)
      requires Valid() && d in t.depth && GoodName(name) && |bytes| < 0x1_0000_0000
      modifies this`t, fat, data
      ensures Valid()
      ensures ok <==> View(old(data[..]), n, old(t), d, name) == Absent
                      && FreeCount(old(Table())) >= Needed(|bytes|, SLOT * n) + Extra(old(data[..]), n, old(t), d)
      ensures ok ==> Shows(old(data[..]), n, old(t), data[..], t, d, name, NewFile(bytes, n))
      ensures ok ==> FreeCount(Table()) + Needed(|bytes|, SLOT * n) + Extra(old(data[..]), n, old(t), d) == FreeCount(old(Table()))
      ensures ok ==> Takes(old(data[..]), n, old(t), data[..], t, d, NewFile(bytes, n))
      ensures !ok ==> Table() == old(Table()) && t == old(t) && SameViews(old(data[..]), n, old(t), data[..], t)
      ensures !ok ==> SameSpaces(old(data[..]), n, old(t), data[..], t)
    {
      var found, _, _, _, _ := FindEntryInDir(d, name);
      ghost var table0, data0, t0 := Table(), data[..], t;
      MissingIff(data0, n, t0, d, name);
      ok := !found;
      if ok {
        var first;
        ghost var ch;
        ok, first, ch := StoreBytes(bytes);
        if !ok {
          FreeFrame(table0, data0, n, t0, Table(), data[..]);
        } else {
          StoredWaits(table0, data0, Table(), data[..], n, t0, ch, bytes);
          FreeFrame(table0, data0, n, t0, Table(), data[..]);
          RoomySame(table0, data0, n, t0, Table(), data[..], d);
          ghost var table1, data1 := Table(), data[..];
          MissingSame(data0, n, t0, data1, t0, d, name);
          ok := EnterFile(d, name, bytes, first, ch);
          if ok {
            ShowsAfter(data0, n, t0, data1, t0, data[..], t, d, name, NewFile(bytes, n));
            TakesFrom(data0, n, t0, data1, t0, data[..], t, d, NewFile(bytes, n));
          } else {
            StoreUndone(table0, data0, table1, data1, n, ch, bytes, |bytes|, Table());
          }
        }
      }
    }

    /** The entry of a file whose bytes are stored; without room for it the bytes are given back. */
    method EnterFile(d: nat, name: Bytes, bytes: Bytes, first: nat, ghost ch: Chain) returns (ok: bool)
      requires Valid() && d in t.depth && GoodName(name) && |bytes| < 0x1_0000_0000
      requires Waiting(Table(), data[..], t, ch, bytes) && first == (if ch == [] then 0 else ch[0])
      requires Missing(data[..], n, t, d, name)
      modifies this`t, fat, data
      ensures Valid()
      ensures ok <==> Roomy(old(data[..]), n, old(t), d) || FreeCount(old(Table())) > 0
      ensures ok ==> Shows(old(data[..]), n, old(t), data[..], t, d, name, File(|bytes|, bytes, |ch|))
      ensures ok ==> FreeCount(Table()) + Extra(old(data[..]), n, old(t), d) == FreeCount(old(Table()))
      ensures ok ==> Takes(old(data[..]), n, old(t), data[..], t, d, File(|bytes|, bytes, |ch|))
      ensures !ok ==> Table() == Freed(old(Table()), ch) && data[..] == old(data[..]) && t == old(t)
    {
      ghost var table0, data0, t0 := Table(), data[..], t;
      var c, j;
      ghost var i, extra;
      ok, c, j, i, extra := FindFreeDirSlot(d);
      if !ok {
        GiveBack(first, ch);
        FreedWaiting(table0, data0, n, t0, ch, bytes);
      } else {
        if extra != 0 {
          GrowthWaits(table0, data0, n, t0, d, extra, Table(), data[..], ch, bytes);
        }
        PutFile(d, name, bytes, first, c, j, ch, i, data0, t0);
      }
    }

    method PutFile(d: nat, name: Bytes, bytes: Bytes, first: nat, c: nat, j: nat, ghost ch: Chain, ghost i: nat,
                   ghost data0: seq<Bytes>, ghost t0: Tree)
      requires Valid() && d in t.depth && GoodName(name) && |bytes| < 0x1_0000_0000
      requires Waiting(Table(), data[..], t, ch, bytes) && first == (if ch == [] then 0 else ch[0])
      requires Missing(data0, n, t0, d, name) && SameViews(data0, n, t0, data[..], t) && Opens(data0, n, t0, data[..], t, d)
      requires Room(data[..], n, t, d, Pos(i, j)) && c == t.o.chains[d][i] && c < data.Length
      modifies this`t, data
      ensures Valid() && Shows(data0, n, t0, data[..], t, d, name, File(|bytes|, bytes, |ch|))
      ensures Takes(data0, n, t0, data[..], t, d, File(|bytes|, bytes, |ch|))
    {
      ghost var data1, t1 := data[..], t;
      if ch != [] {
        InRange(Table(), ch, ch[0]);
      }
      var s := NewEntry(name, ATTR_ARCHIVE, first, |bytes|);
      WriteEntryAt(c, j, s);
      MissingSame(data0, n, t0, data1, t1, d, name);
      t := FileTree(data1, t1, d, Pos(i, j), s, ch);
      FileShows(Table(), data1, n, t1, d, Pos(i, j), s, data[..], ch, bytes);
      ShowsAfter(data0, n, t0, data1, t1, data[..], t, d, name, File(|bytes|, bytes, |ch|));
      FileTakes(Table(), data1, n, t1, d, Pos(i, j), s, data[..], ch, bytes);
      TakesFrom(data0, n, t0, data1, t1, data[..], t, d, File(|bytes|, bytes, |ch|));
    }

    // ---------- directories ----------

    /** Creates an empty directory, under the same conditions and at the same cost as a file of one cluster. */
    method CreateDir(d: nat, name: Bytes) returns (ok: bool, c: nat)
      requires Valid() && d in t.depth && GoodName(name)
      modifies this`t, fat, data
      ensures Valid()
      ensures ok <==> View(old(data[..]), n, old(t), d, name) == Absent
                      && FreeCount(old(Table())) >= 1 + Extra(old(data[..]), n, old(t), d)
      ensures ok ==> c !in old(t.depth) && c in t.depth && Shows(old(data[..]), n, old(t), data[..], t, d, name, Dir(c))
      ensures ok ==> FreeCount(Table()) + 1 + Extra(old(data[..]), n, old(t), d) == FreeCount(old(Table()))
      ensures ok ==> Takes(old(data[..]), n, old(t), data[..], t, d, Dir(c))
      ensures !ok ==> Table() == old(Table()) && t == old(t) && SameViews(old(data[..]), n, old(t), data[..], t)
      ensures !ok ==> SameSpaces(old(data[..]), n, old(t), data[..], t)
    {
      var found, _, _, _, _ := FindEntryInDir(d, name);
      ghost var table0, data0, t0 := Table(), data[..], t;
      MissingIff(data0, n, t0, d, name);
      ok, c := !found, 0;
      if ok {
        c := AllocCluster();
        ok := c != 0;
        if ok {
          ghost var table1, data1 := Table(), data[..];
          ClaimUndone(table0, c);
          ClaimedWaits(table0, data0, n, t0, c, table1, data1);
          FreeFrame(table0, data0, n, t0, table1, data1);
          RoomySame(table0, data0, n, t0, table1, data1, d);
          MissingSame(data0, n, t0, data1, t0, d, name);
          ok := EnterDir(d, name, c);
          if ok {
            ShowsAfter(data0, n, t0, data1, t0, data[..], t, d, name, Dir(c));
            TakesFrom(data0, n, t0, data1, t0, data[..], t, d, Dir(c));
          }
        }
      }
    }

    method EnterDir(d: nat, name: Bytes, k: nat) returns (ok: bool)
      requires Valid() && d in t.depth && GoodName(name) && k < data.Length && Blank(data[k])
      requires Waiting(Table(), data[..], t, [k], []) && Missing(data[..], n, t, d, name)
      modifies this`t, fat, data
      ensures Valid()
      ensures ok <==> Roomy(old(data[..]), n, old(t), d) || FreeCount(old(Table())) > 0
      ensures ok ==> k in t.depth && Shows(old(data[..]), n, old(t), data[..], t, d, name, Dir(k))
      ensures ok ==> FreeCount(Table()) + Extra(old(data[..]), n, old(t), d) == FreeCount(old(Table()))
      ensures ok ==> Takes(old(data[..]), n, old(t), data[..], t, d, Dir(k))
      ensures !ok ==> Table() == Freed(old(Table()), [k]) && data[..] == old(data[..]) && t == old(t)
    {
      ghost var table0, data0, t0 := Table(), data[..], t;
      var c, j;
      ghost var i, extra;
      ok, c, j, i, extra := FindFreeDirSlot(d);
      if !ok {
        FreeClusterChain(k, [k]);
        FreedWaiting(table0, data0, n, t0, [k], []);
      } else {
        if extra != 0 {
          FreeNotInChain(table0, [k], extra);
          GrowthWaits(table0, data0, n, t0, d, extra, Table(), data[..], [k], []);
        }
        PutDir(d, name, k, c, j, i, data0, t0);
      }
    }

    method PutDir(d: nat, name: Bytes, k: nat, c: nat, j: nat, ghost i: nat, ghost data0: seq<Bytes>, ghost t0: Tree)
      requires Valid() && d in t.depth && GoodName(name) && k < data.Length && Blank(data[k])
      requires Waiting(Table(), data[..], t, [k], [])
      requires Missing(data0, n, t0, d, name) && SameViews(data0, n, t0, data[..], t) && Opens(data0, n, t0, data[..], t, d)
      requires Room(data[..], n, t, d, Pos(i, j)) && c == t.o.chains[d][i] && c < data.Length
      modifies this`t, data
      ensures Valid() && k in t.depth && Shows(data0, n, t0, data[..], t, d, name, Dir(k))
      ensures Takes(data0, n, t0, data[..], t, d, Dir(k))
    {
      ghost var data1, t1 := data[..], t;
      var s := NewEntry(name, ATTR_DIRECTORY, k, 0);
      WriteEntryAt(c, j, s);
      MissingSame(data0, n, t0, data1, t1, d, name);
      ghost var h := HeldDir(t1, k, t1.depth[d] + 1);
      t := EnteredAt(data1, h, d, Pos(i, j), s);
      DirEnters(Table(), data1, n, t1, d, Pos(i, j), s, data[..], k);
      DirShows(Table(), data1, n, t1, d, Pos(i, j), s, data[..], k, h, t);
      ShowsAfter(data0, n, t0, data1, t1, data[..], t, d, name, Dir(k));
      TakesFrom(data0, n, t0, data1, t1, data[..], t, d, Dir(k));
    }

    // ---------- removal ----------

    /** Removes a file, or a directory whatever it holds, and frees exactly its chain. */
    method DeleteFile(d: nat, name: Bytes) returns (ok: bool, ghost first: nat)
      requires Valid() && d in t.depth
      modifies this`t, fat, data
      ensures Valid() && (ok <==> View(old(data[..]), n, old(t), d, name) != Absent)
      ensures ok ==> Hides(old(data[..]), n, old(t), data[..], t, d, name)
      ensures ok ==> Table() == Released(old(Table()), old(t), first) && match View(old(data[..]), n, old(t), d, name)
        case Absent => false
        case File(_, _, k) => k == ClustersOf(old(t), first)
        case Dir(id) => id == first
      ensures ok ==> FreeCount(Table()) == FreeCount(old(Table())) + ClustersOf(old(t), first)
      ensures ok ==> Gives(old(data[..]), n, old(t), data[..], t, d, View(old(data[..]), n, old(t), d, name))
      ensures !ok ==> fat[..] == old(fat[..]) && data[..] == old(data[..]) && t == old(t)
    {
      var c, j, e;
      ghost var i;
      ok, c, j, e, i := FindEntryInDir(d, name);
      first := 0;
      ghost var table0, data0, t0 := Table(), data[..], t;
      MissingIff(data0, n, t0, d, name);
      if ok {
        WriteEntryAt(c, j, e[0 := DELETED]);
        var start := First(e);
        first := start;
        ghost var p := Pos(i, j);
        ViewIs(table0, data0, n, t0, d, name, p);
        ErasedGives(table0, data0, n, t0, d, p, e[0 := DELETED], data[..]);
        EraseEntry(table0, data0, n, t0, d, p, e[0 := DELETED], data[..]);
        if start >= 2 {
          ErasedTarget(table0, data0, n, t0, d, p, d, p);
          DirChain(table0, t0, start);
          FreeClusterChain(start, t0.o.chains[start]);
        }
        t := Erased(t0, first);
        ErasedHides(table0, data0, n, t0, d, p, e[0 := DELETED], data[..]);
      }
    }

    // ---------- reading ----------

    /** -1 for no such file, -2 for a file larger than the buffer, otherwise the number of bytes read as a signed
        32-bit number. */
    method ReadFile(d: nat, name: Bytes, out: array<Byte>) returns (r: int)
      requires Valid() && d in t.depth
      modifies out
      ensures match View(data[..], n, t, d, name)
        case Absent => r == -1
        case Dir(_) => r == -1
        case File(size, bytes, _) =>
          if size > out.Length then r == -2
          else |bytes| <= out.Length && |bytes| < 0x1_0000_0000 && r == Signed(|bytes|) && out[..|bytes|] == bytes
    {
      var found, c, j, e;
      ghost var i;
      found, c, j, e, i := FindEntryInDir(d, name);
      MissingIff(data[..], n, t, d, name);
      if found {
        ViewIs(Table(), data[..], n, t, d, name, Pos(i, j));
        assert SlotOk(data[..], n, t, d, Pos(i, j));
      }
      if !found || IsDir(e) {
        r := -1;
      } else if Size(e) > out.Length {
        r := -2;
      } else {
        var total := ReadChain(First(e), Size(e), out);
        r := Signed(total);
      }
    }

    method ReadChain(first: nat, size: nat, out: array<Byte>) returns (r: nat)
      requires Valid() && size <= out.Length && (first >= 2 ==> first in t.o.chains)
      modifies out
      ensures r <= size
      ensures var all := if first in t.o.chains then Content(data[..], t.o.chains[first]) else [];
              out[..r] == if size <= |all| then all[..size] else all
    {
      ghost var was, f, tree := data[..], Table(), t;
      ghost var ch := if first in tree.o.chains then tree.o.chains[first] else [];
      if first in tree.o.chains {
        DirChain(f, tree, first);
        StartInRange(f, tree.o, first);
      }
      var c := first;
      var going := Continues(c);
      ghost var i := 0;
      r := 0;
      while going && r < size
        invariant i <= |ch| && r <= size && going == (i < |ch|) && (going ==> c == ch[i])
        invariant Read(was, ch, i, out[..r], size)
        decreases |ch| - i
      {
        StepChain(f, ch, i);
        ghost var before := out[..r];
        var r' := CopyCluster(data[c], size, out, r);
        ReadMore(was, ch, i, before, size, out[..r']);
        r := r';
        c := GetFatEntry(c);
        i := i + 1;
        going := Continues(c);
      }
      ReadAll(was, ch, i, out[..r], size);
    }
  }

  /** A 32-bit number read as a signed one. */
  function Signed(v: nat): (r: int)
    requires v < 0x1_0000_0000
    ensures r == v <==> v < 0x8000_0000
    ensures r < 0 <==> v >= 0x8000_0000
  {
    if v < 0x8000_0000 then v else v - 0x1_0000_0000
  }

  ghost function Blankest(): Tree {
    Tree(2, Objects(map[2 := [2]], map[2 := 2]), map[2 := 0], map[], map[], map[2 := Pos(0, 0)])
  }

  lemma FormattedOk(fat: Fat, data: seq<Bytes>, n: nat)
    requires 3 <= |fat| == |data| <= EOC_MIN && n > 0 && fat[2] == EOC
    requires forall c :: 0 <= c < |data| ==> data[c] == Zeros(SLOT * n)
    ensures Good(fat, data, n, Blankest()) && forall d: nat, name: Bytes :: View(data, n, Blankest(), d, name) == Absent
  {
    var t := Blankest();
    NewChain(fat, 2);
    assert fat[2 := EOC] == fat;
    forall s: nat ensures ObjectAt(fat, t.o, s) {
    }
    forall d: nat, p: Pos ensures SlotOk(data, n, t, d, p) && (IsSlot(n, t, d, p) ==> !Visible(SlotAt(data, t.o.chains[d], p))) {
      ZeroSlot(data[2], p.j);
    }
    forall d: nat, name: Bytes ensures View(data, n, t, d, name) == Absent {
      assert Missing(data, n, t, d, name);
    }
  }

  method CopyCluster(cluster: Bytes, size: nat, out: array<Byte>, r: nat) returns (r': nat)
    requires r <= size <= out.Length
    modifies out
    ensures r <= r' <= size && r' - r <= |cluster| && (r' < size ==> r' - r == |cluster|)
    ensures out[..r'] == old(out[..r]) + cluster[..r' - r]
  {
    r' := r;
    var b := 0;
    while b < |cluster| && r' < size
      invariant b <= |cluster| && r' == r + b && r' <= size
      invariant out[..r'] == old(out[..r]) + cluster[..b]
    {
      out[r'] := cluster[b];
      r', b := r' + 1, b + 1;
    }
  }

  /** The output holds the first i clusters, or as much as was asked for. */
  ghost predicate Read(data: seq<Bytes>, ch: Chain, i: nat, out: Bytes, size: nat) {
    && i <= |ch| && |out| <= size && |out| <= |Content(data, ch)| && out == Content(data, ch)[..|out|]
    && (|out| < size ==> out + Content(data, ch[i..]) == Content(data, ch))
  }

  lemma ReadMore(data: seq<Bytes>, ch: Chain, i: nat, out: Bytes, size: nat, out': Bytes)
    requires Read(data, ch, i, out, size) && |out| < size && i < |ch| && ch[i] < |data|
    requires |out| <= |out'| <= size && |out'| - |out| <= |data[ch[i]]| && out' == out + data[ch[i]][..|out'| - |out|]
    requires |out'| < size ==> |out'| - |out| == |data[ch[i]]|
    ensures Read(data, ch, i + 1, out', size)
  {
    var cluster, rest := data[ch[i]], Content(data, ch[i + 1..]);
    assert ch[i..][1..] == ch[i + 1..] && ch[i..][0] == ch[i];
    assert Content(data, ch[i..]) == cluster + rest;
    assert out + (cluster + rest) == (out + cluster) + rest;
    assert out' == (out + cluster)[..|out'|];
  }

  lemma ReadAll(data: seq<Bytes>, ch: Chain, i: nat, out: Bytes, size: nat)
    requires Read(data, ch, i, out, size) && (i == |ch| || |out| == size)
    ensures var all := Content(data, ch); out == if size <= |all| then all[..size] else all
  {
    assert i == |ch| ==> Content(data, ch[i..]) == [];
  }

  method NewEntry(name: Bytes, attr: Byte, first: nat, size: nat) returns (s: Slot)
    requires GoodName(name) && first < 0x1_0000_0000 && size < 0x1_0000_0000 && (attr == ATTR_ARCHIVE || attr == ATTR_DIRECTORY)
    ensures Visible(s) && Name(s) == name && First(s) == first && Size(s) == size && (IsDir(s) <==> attr == ATTR_DIRECTORY)
  {
    s := Entry(name, attr, first, size);
    EntryFields(name, attr, first, size);
  }

  // ---------- scanning the slots of one cluster ----------

  predicate IsNamed(s: Slot, name: Bytes) {
    Visible(s) && Name(s) == name
  }

  method ScanForName(cluster: Bytes, n: nat, name: Bytes) returns (stop: bool, found: bool, j: nat)
    ensures j <= n && (stop || found ==> j < n) && (!stop && !found ==> j == n)
    ensures forall k :: 0 <= k < j ==> !Unused(SlotIn(cluster, k)) && !IsNamed(SlotIn(cluster, k), name)
    ensures stop ==> !found && Unused(SlotIn(cluster, j))
    ensures found ==> IsNamed(SlotIn(cluster, j), name)
  {
    j, stop, found := 0, false, false;
    while j < n && !stop && !found
      invariant j <= n && (stop || found ==> j < n)
      invariant forall k :: 0 <= k < j ==> !Unused(SlotIn(cluster, k)) && !IsNamed(SlotIn(cluster, k), name)
      invariant stop ==> !found && Unused(SlotIn(cluster, j))
      invariant found ==> IsNamed(SlotIn(cluster, j), name)
      decreases n - j, !stop && !found
    {
      var s := SlotIn(cluster, j);
      if Unused(s) {
        stop := true;
      } else if IsNamed(s, name) {
        found := true;
      } else {
        j := j + 1;
      }
    }
  }

  /** The first i clusters of the directory hold no unused slot and not the name. */
  ghost predicate Passed(data: seq<Bytes>, n: nat, t: Tree, d: nat, name: Bytes, i: nat) {
    forall p: Pos :: IsSlot(n, t, d, p) && p.i < i ==>
      !Unused(SlotAt(data, t.o.chains[d], p)) && !IsNamed(SlotAt(data, t.o.chains[d], p), name)
  }

  lemma PassCluster(data: seq<Bytes>, n: nat, t: Tree, d: nat, name: Bytes, i: nat)
    requires Passed(data, n, t, d, name, i) && d in t.o.chains && i < |t.o.chains[d]| && t.o.chains[d][i] < |data|
    requires forall k :: 0 <= k < n ==> var s := SlotIn(data[t.o.chains[d][i]], k); !Unused(s) && !IsNamed(s, name)
    ensures Passed(data, n, t, d, name, i + 1)
  {
    forall p: Pos | IsSlot(n, t, d, p) && p.i < i + 1
      ensures !Unused(SlotAt(data, t.o.chains[d], p)) && !IsNamed(SlotAt(data, t.o.chains[d], p), name)
    {
      if p.i == i {
        assert SlotAt(data, t.o.chains[d], p) == SlotIn(data[t.o.chains[d][i]], p.j);
      }
    }
  }

  lemma AllPassed(data: seq<Bytes>, n: nat, t: Tree, d: nat, name: Bytes, i: nat)
    requires Passed(data, n, t, d, name, i) && d in t.o.chains
    ensures i >= |t.o.chains[d]| ==> Missing(data, n, t, d, name)
  {
  }

  /** Beyond the first unused slot there are only unused ones. */
  lemma MissingFrom(fat: Fat, data: seq<Bytes>, n: nat, t: Tree, d: nat, name: Bytes, i: nat, j: nat)
    requires Good(fat, data, n, t) && d in t.depth && i < |t.o.chains[d]| && j < n && t.o.chains[d][i] < |data|
    requires Passed(data, n, t, d, name, i) && Unused(SlotIn(data[t.o.chains[d][i]], j))
    requires forall k :: 0 <= k < j ==> !IsNamed(SlotIn(data[t.o.chains[d][i]], k), name)
    ensures Missing(data, n, t, d, name)
  {
    forall p: Pos ensures !Hit(data, n, t, d, name, p) {
      assert SlotOk(data, n, t, d, p) && SlotOk(data, n, t, d, Pos(i, j));
    }
  }

  // ---------- room in a directory ----------

  method ScanForRoom(cluster: Bytes, n: nat) returns (ok: bool, j: nat)
    ensures ok ==> j < n && Reusable(SlotIn(cluster, j))
    ensures !ok ==> j == n
    ensures forall k :: 0 <= k < j ==> !Reusable(SlotIn(cluster, k))
  {
    j := 0;
    while j < n && !Reusable(SlotIn(cluster, j))
      invariant j <= n && forall k :: 0 <= k < j ==> !Reusable(SlotIn(cluster, k))
    {
      j := j + 1;
    }
    ok := j < n;
  }

  /** Every slot of the first i clusters of the directory is taken. */
  ghost predicate Taken(data: seq<Bytes>, n: nat, t: Tree, d: nat, i: nat) {
    forall p: Pos :: IsSlot(n, t, d, p) && p.i < i ==> !Reusable(SlotAt(data, t.o.chains[d], p))
  }

  lemma TakeCluster(data: seq<Bytes>, n: nat, t: Tree, d: nat, i: nat)
    requires Taken(data, n, t, d, i) && d in t.o.chains && i < |t.o.chains[d]| && t.o.chains[d][i] < |data|
    requires forall k :: 0 <= k < n ==> !Reusable(SlotIn(data[t.o.chains[d][i]], k))
    ensures Taken(data, n, t, d, i + 1)
  {
    forall p: Pos | IsSlot(n, t, d, p) && p.i < i + 1 ensures !Reusable(SlotAt(data, t.o.chains[d], p)) {
      if p.i == i {
        assert SlotAt(data, t.o.chains[d], p) == SlotIn(data[t.o.chains[d][i]], p.j);
      }
    }
  }

  lemma RoomHere(data: seq<Bytes>, n: nat, t: Tree, d: nat, i: nat, j: nat)
    requires Taken(data, n, t, d, i) && d in t.depth && d in t.end && d in t.o.chains
    requires i < |t.o.chains[d]| && t.o.chains[d][i] < |data| && j < n
    requires Reusable(SlotIn(data[t.o.chains[d][i]], j))
    requires forall k :: 0 <= k < j ==> !Reusable(SlotIn(data[t.o.chains[d][i]], k))
    ensures Room(data, n, t, d, Pos(i, j))
  {
    forall q: Pos | IsSlot(n, t, d, q) && Before(q, Pos(i, j)) ensures !Unused(SlotAt(data, t.o.chains[d], q)) {
      if q.i == i {
        assert SlotAt(data, t.o.chains[d], q) == SlotIn(data[t.o.chains[d][i]], q.j);
      }
    }
  }
}
