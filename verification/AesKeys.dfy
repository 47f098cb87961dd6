/** The AES-128 key schedule (section 5.2 of FIPS 197). */
module AesKeys {
  import opened GaloisField
  import opened Octets
  import opened SBox
  import opened Aes

  const RCON: seq<bv8> := [0x00, 0x01, 0x02, 0x04, 0x08, 0x10, 0x20, 0x40, 0x80, 0x1b, 0x36]

  /** The round constants are the powers of x in the field. */
  lemma RconIs(r: nat)
    requires 0 < r < 10
    ensures RCON[1] == 1 && RCON[r + 1] == Xtime(RCON[r])
  {
  }

  /** A word turned by one byte and substituted, with a round constant added. */
  function Turned(t: Bytes, r: nat): (u: Bytes)
    requires |t| == 4 && 0 < r <= 10
    ensures |u| == 4
  {
    [Xor(Sub(t[1]), RCON[r]), Sub(t[2]), Sub(t[3]), Sub(t[0])]
  }

  /** Word c of a round key. */
  ghost function Slot(k: Bytes, c: nat): (w: Bytes)
    requires |k| == 16 && c < 4
    ensures |w| == 4
  {
    k[4 * c..4 * c + 4]
  }

  lemma SlotsOf(a: Bytes, b: Bytes, c: Bytes, d: Bytes)
    requires |a| == |b| == |c| == |d| == 4
    ensures var k := a + b + c + d; Slot(k, 0) == a && Slot(k, 1) == b && Slot(k, 2) == c && Slot(k, 3) == d
  {
  }

  lemma FromSlots(k: Bytes)
    requires |k| == 16
    ensures k == Slot(k, 0) + Slot(k, 1) + Slot(k, 2) + Slot(k, 3)
  {
  }

  /** A round key from the one before it: the first word from the last, then each from its left neighbour. */
  ghost function NextKey(k: Bytes, r: nat): (k': Bytes)
    requires |k| == 16 && 0 < r <= 10
    ensures |k'| == 16
  {
    var w0 := XorBytes(Slot(k, 0), Turned(Slot(k, 3), r));
    var w1 := XorBytes(Slot(k, 1), w0);
    var w2 := XorBytes(Slot(k, 2), w1);
    w0 + w1 + w2 + XorBytes(Slot(k, 3), w2)
  }

  lemma NextSlots(k: Bytes, r: nat)
    requires |k| == 16 && 0 < r <= 10
    ensures var n := NextKey(k, r);
      && Slot(n, 0) == XorBytes(Slot(k, 0), Turned(Slot(k, 3), r)) && Slot(n, 1) == XorBytes(Slot(k, 1), Slot(n, 0))
      && Slot(n, 2) == XorBytes(Slot(k, 2), Slot(n, 1)) && Slot(n, 3) == XorBytes(Slot(k, 3), Slot(n, 2))
  {
    var w0 := XorBytes(Slot(k, 0), Turned(Slot(k, 3), r));
    var w1 := XorBytes(Slot(k, 1), w0);
    var w2 := XorBytes(Slot(k, 2), w1);
    SlotsOf(w0, w1, w2, XorBytes(Slot(k, 3), w2));
  }

  /** The round key before it. */
  ghost function PreviousKey(k: Bytes, r: nat): (k': Bytes)
    requires |k| == 16 && 0 < r <= 10
    ensures |k'| == 16
  {
    var w3 := XorBytes(Slot(k, 3), Slot(k, 2));
    XorBytes(Slot(k, 0), Turned(w3, r)) + XorBytes(Slot(k, 1), Slot(k, 0)) + XorBytes(Slot(k, 2), Slot(k, 1)) + w3
  }

  /** No round key is lost on the way: each gives back the one before it, and so the key. */
  lemma PreviousUndoesNext(k: Bytes, r: nat)
    requires |k| == 16 && 0 < r <= 10
    ensures PreviousKey(NextKey(k, r), r) == k
  {
    var t := Turned(Slot(k, 3), r);
    var w0 := XorBytes(Slot(k, 0), t);
    var w1 := XorBytes(Slot(k, 1), w0);
    var w2 := XorBytes(Slot(k, 2), w1);
    SlotsOf(w0, w1, w2, XorBytes(Slot(k, 3), w2));
    XorBytesInverse(Slot(k, 0), t);
    XorBytesInverse(Slot(k, 1), w0);
    XorBytesInverse(Slot(k, 2), w1);
    XorBytesInverse(Slot(k, 3), w2);
    FromSlots(k);
  }

  ghost function KeyOf(key: Bytes, r: nat): (k: Bytes)
    requires |key| == 16 && r <= 10
    ensures |k| == 16
  {
    if r == 0 then key else NextKey(KeyOf(key, r - 1), r)
  }

  /** Word i of the schedule: word i % 4 of round key i / 4. */
  ghost function Word(key: Bytes, i: nat): (w: Bytes)
    requires |key| == 16 && i < 44
    ensures |w| == 4
  {
    Slot(KeyOf(key, i / 4), i % 4)
  }

  /** The recurrence of the schedule: each word is the word four before plus the word before, which is turned and
      substituted at the beginning of a round key. */
  lemma WordStep(key: Bytes, i: nat, before: nat, four: nat)
    requires |key| == 16 && 4 <= i < 44 && before == i - 1 && four == i - 4
    ensures Word(key, i) == XorBytes(Word(key, four), if i % 4 == 0 then Turned(Word(key, before), i / 4) else Word(key, before))
  {
    var r, c := i / 4, i % 4;
    var p := r - 1;
    assert four / 4 == p && four % 4 == c;
    assert before / 4 == (if c == 0 then p else r) && before % 4 == if c == 0 then 3 else c - 1;
    NextSlots(KeyOf(key, p), r);
    assert c == 0 || c == 1 || c == 2 || c == 3;
  }

  function Row(w: array2<bv8>, j: nat): (t: Bytes)
    requires w.Length1 == 4 && j < w.Length0
    reads w
    ensures |t| == 4
  {
    [w[j, 0], w[j, 1], w[j, 2], w[j, 3]]
  }

  method SetRow(w: array2<bv8>, j: nat, t: Bytes)
    requires w.Length1 == 4 && j < w.Length0 && |t| == 4
    modifies w
    ensures Row(w, j) == t && forall i: nat :: i < w.Length0 && i != j ==> Row(w, i) == old(Row(w, i))
  {
    w[j, 0] := t[0];
    w[j, 1] := t[1];
    w[j, 2] := t[2];
    w[j, 3] := t[3];
  }

  /** The first n words are those of the schedule. */
  ghost predicate Scheduled(w: array2<bv8>, key: Bytes, n: nat)
    requires w.Length0 == 44 && w.Length1 == 4 && |key| == 16 && n <= 44
    reads w
  {
    forall j: nat :: j < n ==> Row(w, j) == Word(key, j)
  }

  /** All round keys of a key, one word after the other. */
  method KeyExpand(key: Bytes) returns (rk: Bytes)
    requires |key| == 16
    ensures |rk| == 176 && forall r: nat :: r <= 10 ==> RoundKey(rk, r) == KeyOf(key, r)
  {
    var w := new bv8[44, 4];
    var i := 0;
    while i < 4
      invariant 0 <= i <= 4 && Scheduled(w, key, i)
    {
      SetRow(w, i, key[4 * i..4 * i + 4]);
      assert i / 4 == 0 && i % 4 == i;
      i := i + 1;
    }
    while i < 44
      invariant 4 <= i <= 44 && Scheduled(w, key, i)
    {
      ExpandWord(w, key, i);
      i := i + 1;
    }
    rk := Flattened(w, key);
    forall r: nat | r <= 10 ensures RoundKey(rk, r) == KeyOf(key, r) {
      KeyFromWords(rk, key, r);
    }
  }

  method ExpandWord(w: array2<bv8>, ghost key: Bytes, i: nat)
    requires w.Length0 == 44 && w.Length1 == 4 && |key| == 16 && 4 <= i < 44 && Scheduled(w, key, i)
    modifies w
    ensures Scheduled(w, key, i + 1)
  {
    var before, four := i - 1, i - 4;
    WordStep(key, i, before, four);
    var temp := TurnIfFirst(Row(w, before), i);
    SetRow(w, i, XorBytes(Row(w, four), temp));
  }

  method TurnIfFirst(t: Bytes, i: nat) returns (temp: Bytes)
    requires |t| == 4 && 4 <= i < 44
    ensures temp == if i % 4 == 0 then Turned(t, i / 4) else t
  {
    temp := t;
    if i % 4 == 0 {
      var rotated := [temp[1], temp[2], temp[3], temp[0]];
      temp := [Xor(Sub(rotated[0]), RCON[i / 4]), Sub(rotated[1]), Sub(rotated[2]), Sub(rotated[3])];
    }
  }

  method Flattened(w: array2<bv8>, ghost key: Bytes) returns (rk: Bytes)
    requires w.Length0 == 44 && w.Length1 == 4 && |key| == 16 && Scheduled(w, key, 44)
    ensures |rk| == 176 && forall j: nat :: j < 44 ==> rk[4 * j..4 * j + 4] == Word(key, j)
  {
    rk := [];
    var i := 0;
    while i < 44
      invariant 0 <= i <= 44 && |rk| == 4 * i && forall j: nat :: j < i ==> rk[4 * j..4 * j + 4] == Word(key, j)
    {
      ghost var before := rk;
      rk := rk + Row(w, i);
      forall j: nat | j < i + 1 ensures rk[4 * j..4 * j + 4] == Word(key, j) {
        assert j < i ==> rk[4 * j..4 * j + 4] == before[4 * j..4 * j + 4];
      }
      i := i + 1;
    }
  }

  lemma KeyFromWords(rk: Bytes, key: Bytes, r: nat)
    requires |rk| == 176 && |key| == 16 && r <= 10
    requires forall j: nat :: j < 44 ==> rk[4 * j..4 * j + 4] == Word(key, j)
    ensures RoundKey(rk, r) == KeyOf(key, r)
  {
    forall c: nat | c < 4 ensures Slot(RoundKey(rk, r), c) == Slot(KeyOf(key, r), c) {
      SlotOfWord(rk, key, r, c, 4 * r + c);
    }
    FromSlots(RoundKey(rk, r));
    FromSlots(KeyOf(key, r));
  }

  lemma SlotOfWord(rk: Bytes, key: Bytes, r: nat, c: nat, j: nat)
    requires |rk| == 176 && |key| == 16 && r <= 10 && c < 4 && j == 4 * r + c && rk[4 * j..4 * j + 4] == Word(key, j)
    ensures Slot(RoundKey(rk, r), c) == Slot(KeyOf(key, r), c)
  {
    SlotOfRoundKey(rk, r, c, j);
    assert Word(key, j) == Slot(KeyOf(key, r), c) by {
      assert j / 4 == r && j % 4 == c;
    }
  }

  lemma SlotOfRoundKey(rk: Bytes, r: nat, c: nat, j: nat)
    requires |rk| == 176 && r <= 10 && c < 4 && j == 4 * r + c
    ensures Slot(RoundKey(rk, r), c) == rk[4 * j..4 * j + 4]
  {
    var k, t := RoundKey(rk, r), rk[4 * j..4 * j + 4];
    forall i | 0 <= i < 4 ensures Slot(k, c)[i] == t[i] {
      assert k[4 * c + i] == rk[16 * r + (4 * c + i)];
    }
  }
}
