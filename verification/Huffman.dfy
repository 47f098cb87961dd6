/** Canonical Huffman codes (section 3.2.2 of RFC 1951): the code each length vector assigns,
    the table the kernel builds from it, and bit-by-bit decoding. */
module Huffman {
  import opened Limbs
  import opened BitStream

  const MAX_BITS := 15
  const MAX_SYMBOLS := 288

  predicate IsLengths(ls: seq<nat>) {
    |ls| <= MAX_SYMBOLS && forall i :: 0 <= i < |ls| ==> ls[i] <= MAX_BITS
  }

  // ---------- the code ----------

  /** How many of the first n symbols have length l. */
  ghost function CountTo(ls: seq<nat>, l: nat, n: nat): (c: nat)
    requires n <= |ls|
    ensures c <= n
  {
    if n == 0 then 0 else CountTo(ls, l, n - 1) + if ls[n - 1] == l then 1 else 0
  }

  /** Symbols of length l; length 0 means no code. */
  ghost function Count(ls: seq<nat>, l: nat): nat {
    if l == 0 then 0 else CountTo(ls, l, |ls|)
  }

  /** The smallest code of length l. */
  ghost function First(ls: seq<nat>, l: nat): nat {
    if l == 0 then 0 else 2 * (First(ls, l - 1) + Count(ls, l - 1))
  }

  /** Codes of one length are consecutive, in symbol order. */
  ghost function Code(ls: seq<nat>, s: nat): nat
    requires s < |ls|
  {
    First(ls, ls[s]) + CountTo(ls, ls[s], s)
  }

  /** The bits at p begin with the code of s. */
  ghost predicate Decodes(ls: seq<nat>, d: seq<Byte>, p: nat, s: nat) {
    s < |ls| && 0 < ls[s] && p + ls[s] <= 8 * |d| && MsbVal(d, p, ls[s]) == Code(ls, s)
  }

  lemma {:induction false} CountMonotone(ls: seq<nat>, l: nat, m: nat, n: nat)
    requires m <= n <= |ls|
    ensures CountTo(ls, l, m) <= CountTo(ls, l, n)
    ensures m < n && ls[m] == l ==> CountTo(ls, l, m) < CountTo(ls, l, n)
    decreases n
  {
    if m < n {
      CountMonotone(ls, l, m, n - 1);
    }
  }

  /** Once a code is below the last code of its length, its extensions are below every longer code. */
  lemma {:induction false} ExtensionsBelow(ls: seq<nat>, d: seq<Byte>, p: nat, l: nat, m: nat)
    requires 0 < l < m && p + m <= 8 * |d|
    requires MsbVal(d, p, l) < First(ls, l) + Count(ls, l)
    ensures MsbVal(d, p, m) < First(ls, m)
    decreases m
  {
    if m == l + 1 {
      assert First(ls, m) == 2 * (First(ls, l) + Count(ls, l));
    } else {
      ExtensionsBelow(ls, d, p, l, m - 1);
      assert First(ls, m) == 2 * (First(ls, m - 1) + Count(ls, m - 1));
    }
  }

  /** The code is prefix free for any length vector whatsoever, oversubscribed or not. */
  lemma DecodesUnique(ls: seq<nat>, d: seq<Byte>, p: nat, s: nat, t: nat)
    requires Decodes(ls, d, p, s) && Decodes(ls, d, p, t)
    ensures s == t
  {
    if ls[s] == ls[t] {
      if s < t {
        CountMonotone(ls, ls[s], s, t);
      } else if t < s {
        CountMonotone(ls, ls[s], t, s);
      }
    } else {
      var (x, y) := if ls[s] < ls[t] then (s, t) else (t, s);
      CountMonotone(ls, ls[x], x, |ls|);
      ExtensionsBelow(ls, d, p, ls[x], ls[y]);
    }
  }

  lemma {:induction false} LongerFirst(ls: seq<nat>, l: nat, m: nat)
    requires 0 < l < m
    ensures First(ls, m) >= (First(ls, l) + Count(ls, l)) * Pow2(m - l)
    decreases m
  {
    var a := First(ls, l) + Count(ls, l);
    if m == l + 1 {
      assert Pow2(1) == 2;
    } else {
      LongerFirst(ls, l, m - 1);
      MulCommutes(a, Pow2(m - l));
      MulCommutes(a, Pow2(m - 1 - l));
      MulAssoc(2, Pow2(m - 1 - l), a);
    }
  }

  /**
   * The two rules of section 3.2.2 of RFC 1951: codes of the same length go up with their symbols by ones, and a
   * shorter code precedes every longer one, as strings of bits.
   */
  lemma CanonicalOrder(ls: seq<nat>, s: nat, t: nat)
    requires s < |ls| && t < |ls| && 0 < ls[s] <= ls[t]
    ensures ls[s] == ls[t] && s < t ==> Code(ls, t) == Code(ls, s) + CountTo(ls, ls[s], t) - CountTo(ls, ls[s], s) > Code(ls, s)
    ensures ls[s] < ls[t] ==> Code(ls, t) >= (Code(ls, s) + 1) * Pow2(ls[t] - ls[s])
  {
    if ls[s] == ls[t] {
      if s < t {
        CountMonotone(ls, ls[s], s, t);
      }
    } else {
      ShorterFirst(ls, s, t, ls[s], ls[t], Pow2(ls[t] - ls[s]));
    }
  }

  lemma ShorterFirst(ls: seq<nat>, s: nat, t: nat, l: nat, m: nat, w: nat)
    requires s < |ls| && t < |ls| && 0 < l == ls[s] < m == ls[t] && w == Pow2(m - l)
    ensures Code(ls, t) >= (Code(ls, s) + 1) * w
  {
    var a := First(ls, l) + Count(ls, l);
    CountMonotone(ls, l, s, |ls|);
    LongerFirst(ls, l, m);
    MulLe(Code(ls, s) + 1, a, w);
  }

  // ---------- the table ----------

  /** Where the symbols of length l start in the sorted list. */
  ghost function Offset(ls: seq<nat>, l: nat): nat {
    if l <= 1 then 0 else Offset(ls, l - 1) + Count(ls, l - 1)
  }

  ghost function Slot(ls: seq<nat>, s: nat): nat
    requires s < |ls|
  {
    Offset(ls, ls[s]) + CountTo(ls, ls[s], s)
  }

  /** Symbols with a nonzero length up to l, among the first n. */
  ghost function UpTo(ls: seq<nat>, l: nat, n: nat): (c: nat)
    requires n <= |ls|
    ensures c <= n
  {
    if n == 0 then 0 else UpTo(ls, l, n - 1) + if 0 < ls[n - 1] < l then 1 else 0
  }

  lemma {:induction false} UpToStep(ls: seq<nat>, l: nat, n: nat)
    requires 0 < l && n <= |ls|
    ensures UpTo(ls, l + 1, n) == UpTo(ls, l, n) + CountTo(ls, l, n)
  {
    if n > 0 {
      UpToStep(ls, l, n - 1);
    }
  }

  lemma {:induction false} UpToNone(ls: seq<nat>, n: nat)
    requires n <= |ls|
    ensures UpTo(ls, 1, n) == 0
  {
    if n > 0 {
      UpToNone(ls, n - 1);
    }
  }

  lemma {:induction false} OffsetBound(ls: seq<nat>, l: nat)
    requires 0 < l
    ensures Offset(ls, l) == UpTo(ls, l, |ls|) <= |ls|
  {
    if l == 1 {
      UpToNone(ls, |ls|);
    } else {
      OffsetBound(ls, l - 1);
      UpToStep(ls, l - 1, |ls|);
    }
  }

  lemma {:induction false} OffsetMonotone(ls: seq<nat>, l: nat, m: nat)
    requires 0 < l < m
    ensures Offset(ls, l) + Count(ls, l) <= Offset(ls, m)
    decreases m
  {
    if l + 1 < m {
      OffsetMonotone(ls, l, m - 1);
    }
  }

  lemma SlotInRange(ls: seq<nat>, s: nat)
    requires s < |ls| && 0 < ls[s]
    ensures Slot(ls, s) < Offset(ls, ls[s] + 1) <= |ls|
  {
    CountMonotone(ls, ls[s], s, |ls|);
    OffsetBound(ls, ls[s] + 1);
  }

  lemma SlotsDiffer(ls: seq<nat>, s: nat, t: nat)
    requires s < t < |ls| && 0 < ls[s] && 0 < ls[t]
    ensures Slot(ls, s) != Slot(ls, t)
  {
    CountMonotone(ls, ls[s], s, |ls|);
    CountMonotone(ls, ls[t], t, |ls|);
    if ls[s] == ls[t] {
      CountMonotone(ls, ls[s], s, t);
    } else if ls[s] < ls[t] {
      OffsetMonotone(ls, ls[s], ls[t]);
    } else {
      OffsetMonotone(ls, ls[t], ls[s]);
    }
  }

  /** The symbol of length l and rank r. */
  lemma {:induction false} RankedSymbol(ls: seq<nat>, l: nat, r: nat, n: nat) returns (s: nat)
    requires n <= |ls| && r < CountTo(ls, l, n)
    ensures s < n && ls[s] == l && CountTo(ls, l, s) == r
    decreases n
  {
    if r < CountTo(ls, l, n - 1) {
      s := RankedSymbol(ls, l, r, n - 1);
    } else {
      s := n - 1;
    }
  }

  ghost predicate SlotAt(ls: seq<nat>, symbol: seq<nat>, s: nat) {
    s < |ls| && 0 < ls[s] ==> Slot(ls, s) < |symbol| && symbol[Slot(ls, s)] == s
  }

  class HuffmanTable {
    const count: array<nat>
    const symbol: array<nat>

    constructor ()
      ensures count.Length == MAX_BITS + 1 && symbol.Length == MAX_SYMBOLS && fresh(count) && fresh(symbol)
    {
      count, symbol := new nat[MAX_BITS + 1], new nat[MAX_SYMBOLS];
    }

    /** The table lists, length by length, the symbols of this code. */
    ghost predicate Lists(ls: seq<nat>)
      reads count, symbol
    {
      && IsLengths(ls) && count.Length == MAX_BITS + 1 && symbol.Length == MAX_SYMBOLS
      && (forall l :: 0 <= l <= MAX_BITS ==> count[l] == Count(ls, l))
      && (forall s: nat {:trigger SlotAt(ls, symbol[..], s)} :: SlotAt(ls, symbol[..], s))
    }

    /** Counting sort of the symbols by code length. */
    method Build(ls: seq<nat>)
      requires IsLengths(ls) && count.Length == MAX_BITS + 1 && symbol.Length == MAX_SYMBOLS && count != symbol
      modifies count, symbol
      ensures Lists(ls)
    {
      CountLengths(ls);
      var offsets := Offsets(ls);
      var i := 0;
      while i < |ls|
        invariant i <= |ls| && offsets.Length == MAX_BITS + 2 && fresh(offsets)
        invariant forall l :: 0 <= l <= MAX_BITS ==> count[l] == Count(ls, l)
        invariant Advanced(ls, offsets, i)
        invariant forall s: nat {:trigger SlotAt(ls, symbol[..], s)} :: s < i ==> SlotAt(ls, symbol[..], s)
      {
        if ls[i] != 0 {
          PlaceSymbol(ls, i, offsets[ls[i]]);
          offsets[ls[i]] := offsets[ls[i]] + 1;
        }
        i := i + 1;
      }
    }

    /** Each length's next place in the list, after the first i symbols. */
    ghost predicate Advanced(ls: seq<nat>, offsets: array<nat>, i: nat)
      requires offsets.Length == MAX_BITS + 2 && i <= |ls|
      reads offsets
    {
      forall l :: 1 <= l <= MAX_BITS ==> offsets[l] == Offset(ls, l) + CountTo(ls, l, i)
    }

    method CountLengths(ls: seq<nat>)
      requires IsLengths(ls) && count.Length == MAX_BITS + 1
      modifies count
      ensures forall l :: 0 <= l <= MAX_BITS ==> count[l] == Count(ls, l)
    {
      var j := 0;
      while j <= MAX_BITS
        invariant 0 <= j <= MAX_BITS + 1
        invariant forall l :: 0 <= l < j ==> count[l] == 0
      {
        count[j] := 0;
        j := j + 1;
      }
      var i := 0;
      while i < |ls|
        invariant 0 <= i <= |ls|
        invariant forall l :: 0 <= l <= MAX_BITS ==> count[l] == CountTo(ls, l, i)
      {
        count[ls[i]] := count[ls[i]] + 1;
        i := i + 1;
      }
      count[0] := 0;
    }

    method Offsets(ls: seq<nat>) returns (offsets: array<nat>)
      requires count.Length == MAX_BITS + 1 && forall l :: 0 <= l <= MAX_BITS ==> count[l] == Count(ls, l)
      ensures fresh(offsets) && offsets.Length == MAX_BITS + 2
      ensures forall l :: 1 <= l <= MAX_BITS ==> offsets[l] == Offset(ls, l)
    {
      offsets := new nat[MAX_BITS + 2];
      offsets[1] := 0;
      var len := 1;
      while len <= MAX_BITS
        invariant 1 <= len <= MAX_BITS + 1
        invariant forall l :: 1 <= l <= len ==> offsets[l] == Offset(ls, l)
      {
        offsets[len + 1] := offsets[len] + count[len];
        len := len + 1;
      }
    }

    method PlaceSymbol(ls: seq<nat>, i: nat, slot: nat)
      requires IsLengths(ls) && symbol.Length == MAX_SYMBOLS && i < |ls| && ls[i] != 0 && slot == Slot(ls, i)
      requires forall s: nat {:trigger SlotAt(ls, symbol[..], s)} :: s < i ==> SlotAt(ls, symbol[..], s)
      modifies symbol
      ensures forall s: nat {:trigger SlotAt(ls, symbol[..], s)} :: s < i + 1 ==> SlotAt(ls, symbol[..], s)
    {
      SlotInRange(ls, i);
      ghost var before := symbol[..];
      symbol[slot] := i;
      ghost var now := symbol[..];
      forall s: nat | s < i + 1 ensures SlotAt(ls, now, s) {
        assert s < i ==> SlotAt(ls, before, s);
        if s < i && 0 < ls[s] {
          SlotsDiffer(ls, s, i);
        }
      }
    }

    /** Reads one symbol: exactly the one whose code the stream begins with, if there is one. */
    method Decode(br: BitReader, ghost ls: seq<nat>) returns (sym: int)
      requires br.Valid() && Lists(ls)
      modifies br
      ensures br.Valid() && sym >= -1
      ensures old(br.error) ==> sym == -1
      ensures sym >= 0 ==> Decodes(ls, br.data, old(br.Pos()), sym) && br.At(old(br.Pos()) + ls[sym])
      ensures sym == -1 && !old(br.error) ==> forall s: nat :: !Decodes(ls, br.data, old(br.Pos()), s)
    {
      ghost var p := br.Pos();
      var code, first, index := 0, 0, 0;
      var len := 1;
      while len <= MAX_BITS
        invariant 1 <= len <= MAX_BITS + 1 && br.Valid() && !br.error == !old(br.error)
        invariant len > 1 ==> br.At(p + len - 1)
        invariant br.Pos() == p + len - 1
        invariant code == 2 * MsbVal(br.data, p, len - 1) && code >= first
        invariant first == First(ls, len) && index == Offset(ls, len)
        invariant forall s: nat :: s < |ls| && ls[s] < len ==> !Decodes(ls, br.data, p, s)
      {
        var bit := br.GetBit();
        code := code + bit;
        if br.error {
          return -1;
        }
        var n := count[len];
        if code - first < n {
          sym := Lookup(br.data, p, ls, len, index, code - first);
          return;
        }
        NoneOfLength(ls, br.data, p, len);
        index := index + n;
        first := 2 * (first + n);
        code := 2 * code;
        len := len + 1;
      }
      sym := -1;
    }

    method Lookup(ghost d: seq<Byte>, ghost p: nat, ghost ls: seq<nat>, ghost len: nat, index: nat, r: nat) returns (sym: int)
      requires Lists(ls) && 0 < len <= MAX_BITS && index == Offset(ls, len) && r < Count(ls, len)
      requires p + len <= 8 * |d| && MsbVal(d, p, len) == First(ls, len) + r
      ensures sym >= 0 && Decodes(ls, d, p, sym) && ls[sym] == len
    {
      ghost var s := RankedSymbol(ls, len, r, |ls|);
      assert SlotAt(ls, symbol[..], s);
      return symbol[index + r];
    }
  }

  lemma NoneOfLength(ls: seq<nat>, d: seq<Byte>, p: nat, l: nat)
    requires 0 < l && p + l <= 8 * |d| && MsbVal(d, p, l) >= First(ls, l) + Count(ls, l)
    ensures forall s: nat :: s < |ls| && ls[s] == l ==> !Decodes(ls, d, p, s)
  {
    forall s: nat | s < |ls| && ls[s] == l ensures !Decodes(ls, d, p, s) {
      CountMonotone(ls, l, s, |ls|);
    }
  }

  // ---------- which codes are complete enough ----------

  /** The code of s fits in its length, so some bit string has it. */
  ghost predicate Fits(ls: seq<nat>, s: nat)
    requires s < |ls|
  {
    Code(ls, s) < Pow2(ls[s])
  }

  /** Kraft sum of the first n symbols, in units of 2^-15. */
  ghost function Kraft(ls: seq<nat>, n: nat): nat
    requires IsLengths(ls) && n <= |ls|
  {
    if n == 0 then 0 else Kraft(ls, n - 1) + if ls[n - 1] == 0 then 0 else Pow2(MAX_BITS - ls[n - 1])
  }

  /** The same sum taken length by length. */
  ghost function KraftByLength(ls: seq<nat>, l: nat, n: nat): nat
    requires l <= MAX_BITS && n <= |ls|
  {
    if l == 0 then 0 else KraftByLength(ls, l - 1, n) + CountTo(ls, l, n) * Pow2(MAX_BITS - l)
  }

  lemma {:induction false} KraftZero(ls: seq<nat>, l: nat)
    requires l <= MAX_BITS
    ensures KraftByLength(ls, l, 0) == 0
  {
    if l > 0 {
      KraftZero(ls, l - 1);
    }
  }

  /** Symbol n adds its own term at its own length only. */
  lemma {:induction false} KraftStep(ls: seq<nat>, l: nat, n: nat)
    requires IsLengths(ls) && l <= MAX_BITS && n < |ls|
    ensures KraftByLength(ls, l, n + 1) == KraftByLength(ls, l, n) + if 0 < ls[n] <= l then Pow2(MAX_BITS - ls[n]) else 0
  {
    if l > 0 {
      KraftStep(ls, l - 1, n);
      if ls[n] == l {
        MulAdd(CountTo(ls, l, n), 1, Pow2(MAX_BITS - l));
      }
    }
  }

  lemma {:induction false} KraftSums(ls: seq<nat>, n: nat)
    requires IsLengths(ls) && n <= |ls|
    ensures Kraft(ls, n) == KraftByLength(ls, MAX_BITS, n)
  {
    if n == 0 {
      KraftZero(ls, MAX_BITS);
    } else {
      KraftSums(ls, n - 1);
      KraftStep(ls, MAX_BITS, n - 1);
    }
  }

  /** The first unused code after length l, scaled to 15 bits, is the Kraft sum so far. */
  lemma {:induction false} UsedIsKraft(ls: seq<nat>, l: nat)
    requires l <= MAX_BITS
    ensures (First(ls, l) + Count(ls, l)) * Pow2(MAX_BITS - l) == KraftByLength(ls, l, |ls|)
  {
    if l > 0 {
      UsedIsKraft(ls, l - 1);
      var used, w := First(ls, l - 1) + Count(ls, l - 1), Pow2(MAX_BITS - l);
      assert Pow2(MAX_BITS - (l - 1)) == 2 * w;
      MulAssoc(used, 2, w);
      MulAdd(2 * used, Count(ls, l), w);
    }
  }

  lemma {:induction false} UsedDoubles(ls: seq<nat>, l: nat)
    requires l <= MAX_BITS && First(ls, MAX_BITS) + Count(ls, MAX_BITS) <= Pow2(MAX_BITS)
    ensures First(ls, l) + Count(ls, l) <= Pow2(l)
    decreases MAX_BITS - l
  {
    if l < MAX_BITS {
      UsedDoubles(ls, l + 1);
    }
  }

  ghost predicate AllFit(ls: seq<nat>) {
    forall s: nat :: s < |ls| && 0 < ls[s] ==> Fits(ls, s)
  }

  lemma {:induction false} UsedFits(ls: seq<nat>, l: nat)
    requires AllFit(ls)
    ensures First(ls, l) + Count(ls, l) <= Pow2(l)
  {
    if l > 0 {
      UsedFits(ls, l - 1);
      if Count(ls, l) > 0 {
        var s := RankedSymbol(ls, l, Count(ls, l) - 1, |ls|);
        assert Fits(ls, s);
      }
    }
  }

  lemma KraftFits(ls: seq<nat>, s: nat)
    requires IsLengths(ls) && First(ls, MAX_BITS) + Count(ls, MAX_BITS) <= Pow2(MAX_BITS)
    requires s < |ls| && 0 < ls[s]
    ensures Fits(ls, s)
  {
    UsedDoubles(ls, ls[s]);
    CountMonotone(ls, ls[s], s, |ls|);
  }

  lemma KraftIsUsed(ls: seq<nat>)
    requires IsLengths(ls)
    ensures Kraft(ls, |ls|) == First(ls, MAX_BITS) + Count(ls, MAX_BITS)
  {
    KraftSums(ls, |ls|);
    UsedIsKraft(ls, MAX_BITS);
    assert Pow2(0) == 1;
  }

  /** Every symbol with a length has a code word exactly when the lengths satisfy the Kraft inequality. */
  lemma AllFitIffKraft(ls: seq<nat>)
    requires IsLengths(ls)
    ensures AllFit(ls) <==> Kraft(ls, |ls|) <= Pow2(MAX_BITS)
  {
    KraftIsUsed(ls);
    if AllFit(ls) {
      UsedFits(ls, MAX_BITS);
    } else {
      var s: nat :| s < |ls| && 0 < ls[s] && !Fits(ls, s);
      if Kraft(ls, |ls|) <= Pow2(MAX_BITS) {
        KraftFits(ls, s);
      }
    }
  }

  /** The decoder's 32-bit signed arithmetic never overflows, oversubscribed or not. */
  lemma {:induction false} FirstBound(ls: seq<nat>, l: nat)
    requires IsLengths(ls)
    ensures First(ls, l) <= 576 * (Pow2(l) - 1)
  {
    if l > 0 {
      FirstBound(ls, l - 1);
    }
  }

  lemma FirstFitsInt(ls: seq<nat>, l: nat)
    requires IsLengths(ls) && l <= MAX_BITS + 1
    ensures First(ls, l) < 0x8000_0000
  {
    FirstBound(ls, l);
    Pow2Monotone(l, 16);
    assert Pow2(16) == 65536 by { Pow2Add(8, 8); }
  }
}
