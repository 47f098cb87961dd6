/** The AES steps as the kernel runs them, in place on a 16-byte array. */
module AesBlocks {
  import opened GaloisField
  import opened Octets
  import opened SBox
  import opened Aes

  method SubBytesInPlace(state: array<bv8>)
    requires state.Length == 16
    modifies state
    ensures state[..] == SubBytes(old(state[..]))
  {
    var i := 0;
    while i < 16
      invariant 0 <= i <= 16
      invariant forall j :: 0 <= j < 16 ==> state[j] == if j < i then Sub(old(state[j])) else old(state[j])
    {
      state[i] := Sub(state[i]);
      i := i + 1;
    }
  }

  method InvSubBytesInPlace(state: array<bv8>)
    requires state.Length == 16
    modifies state
    ensures state[..] == InvSubBytes(old(state[..]))
  {
    var i := 0;
    while i < 16
      invariant 0 <= i <= 16
      invariant forall j :: 0 <= j < 16 ==> state[j] == if j < i then InvSub(old(state[j])) else old(state[j])
    {
      state[i] := InvSub(state[i]);
      i := i + 1;
    }
  }

  /** Cells before (r, c) when rows are taken one after the other. */
  predicate Visited(i: nat, r: nat, c: nat) {
    i % 4 < r || (i % 4 == r && i / 4 < c)
  }

  method ShiftRowsInPlace(state: array<bv8>)
    requires state.Length == 16
    modifies state
    ensures state[..] == ShiftRows(old(state[..]))
  {
    var tmp := new bv8[16];
    ghost var want := ShiftRows(state[..]);
    var r := 0;
    while r < 4
      invariant 0 <= r <= 4 && state[..] == old(state[..])
      invariant forall i :: 0 <= i < 16 && Visited(i, r, 0) ==> tmp[i] == want[i]
    {
      var c := 0;
      while c < 4
        invariant 0 <= c <= 4 && state[..] == old(state[..])
        invariant forall i :: 0 <= i < 16 && Visited(i, r, c) ==> tmp[i] == want[i]
      {
        assert (r + 4 * c) % 4 == r && (r + 4 * c) / 4 == c;
        tmp[r + 4 * c] := state[r + 4 * ((c + r) % 4)];
        c := c + 1;
      }
      r := r + 1;
    }
    CopyState(tmp, state);
  }

  method InvShiftRowsInPlace(state: array<bv8>)
    requires state.Length == 16
    modifies state
    ensures state[..] == InvShiftRows(old(state[..]))
  {
    var tmp := new bv8[16];
    ghost var want := InvShiftRows(state[..]);
    var r := 0;
    while r < 4
      invariant 0 <= r <= 4 && state[..] == old(state[..])
      invariant forall i :: 0 <= i < 16 && Visited(i, r, 0) ==> tmp[i] == want[i]
    {
      var c := 0;
      while c < 4
        invariant 0 <= c <= 4 && state[..] == old(state[..])
        invariant forall i :: 0 <= i < 16 && Visited(i, r, c) ==> tmp[i] == want[i]
      {
        assert (r + 4 * c) % 4 == r && (r + 4 * c) / 4 == c;
        tmp[r + 4 * c] := state[r + 4 * ((c - r + 4) % 4)];
        c := c + 1;
      }
      r := r + 1;
    }
    CopyState(tmp, state);
  }

  method CopyState(from: array<bv8>, to: array<bv8>)
    requires from.Length == to.Length == 16 && from != to
    modifies to
    ensures to[..] == from[..]
  {
    var i := 0;
    while i < 16
      invariant 0 <= i <= 16 && to[..i] == from[..i]
    {
      to[i] := from[i];
      i := i + 1;
    }
  }

  method MixByte(a: bv8, b: bv8, c: bv8, d: bv8) returns (r: bv8)
    ensures r == Mix(a, b, c, d)
  {
    MulTwo(a, 8);
    MulTwo(b, 8);
    var x := GfMul(a, 2);
    var y := GfMul(b, 3);
    XorLaws(Xor(x, y), c, d);
    r := Xor(Xor(Xor(x, y), c), d);
  }

  method UnmixByte(a: bv8, b: bv8, c: bv8, d: bv8) returns (r: bv8)
    ensures r == Unmix(a, b, c, d)
  {
    MulEight(a);
    MulEight(b);
    MulEight(c);
    MulEight(d);
    var x := GfMul(a, 14);
    var y := GfMul(b, 11);
    var z := GfMul(c, 13);
    var w := GfMul(d, 9);
    XorLaws(Xor(x, y), z, w);
    r := Xor(Xor(Xor(x, y), z), w);
  }

  /** Columns before c are done, the rest are as they were. */
  ghost predicate ColumnsDone(s: Bytes, done: Bytes, now: Bytes, c: nat)
    requires |s| == |done| == |now| == 16
  {
    forall k: nat {:trigger Column(now, k)} :: k < 4 ==> Column(now, k) == if k < c then Column(done, k) else Column(s, k)
  }

  lemma AllColumnsDone(s: Bytes, done: Bytes, now: Bytes)
    requires |s| == |done| == |now| == 16 && ColumnsDone(s, done, now, 4)
    ensures now == done
  {
    FromColumns(now);
    FromColumns(done);
  }

  lemma MixedColumnIs(s: Bytes, k: nat)
    requires |s| == 16 && k < 4
    ensures Column(MixColumns(s), k) == MixColumn(Column(s, k))
  {
    ColumnsOf(MixColumn(Column(s, 0)), MixColumn(Column(s, 1)), MixColumn(Column(s, 2)), MixColumn(Column(s, 3)));
    assert k == 0 || k == 1 || k == 2 || k == 3;
  }

  lemma UnmixedColumnIs(s: Bytes, k: nat)
    requires |s| == 16 && k < 4
    ensures Column(InvMixColumns(s), k) == InvMixColumn(Column(s, k))
  {
    ColumnsOf(InvMixColumn(Column(s, 0)), InvMixColumn(Column(s, 1)), InvMixColumn(Column(s, 2)), InvMixColumn(Column(s, 3)));
    assert k == 0 || k == 1 || k == 2 || k == 3;
  }

  method WriteColumn(state: array<bv8>, c: nat, b: Bytes, ghost s: Bytes, ghost done: Bytes)
    requires state.Length == 16 && c < 4 && |b| == 4 && |s| == |done| == 16
    requires ColumnsDone(s, done, state[..], c) && b == Column(done, c)
    modifies state
    ensures ColumnsDone(s, done, state[..], c + 1)
  {
    ghost var before := state[..];
    state[4 * c], state[4 * c + 1], state[4 * c + 2], state[4 * c + 3] := b[0], b[1], b[2], b[3];
    ghost var now := state[..];
    forall k: nat | k < 4 ensures Column(now, k) == if k < c + 1 then Column(done, k) else Column(s, k) {
      assert k != c ==> Column(now, k) == Column(before, k);
    }
  }

  method MixColumnsInPlace(state: array<bv8>)
    requires state.Length == 16
    modifies state
    ensures state[..] == MixColumns(old(state[..]))
  {
    ghost var s, done := state[..], MixColumns(state[..]);
    var c := 0;
    while c < 4
      invariant 0 <= c <= 4 && ColumnsDone(s, done, state[..], c)
    {
      ghost var a := Column(state[..], c);
      MixedColumnIs(s, c);
      var a0, a1, a2, a3 := state[4 * c], state[4 * c + 1], state[4 * c + 2], state[4 * c + 3];
      var b0 := MixByte(a0, a1, a2, a3);
      var b1 := MixByte(a1, a2, a3, a0);
      var b2 := MixByte(a2, a3, a0, a1);
      var b3 := MixByte(a3, a0, a1, a2);
      WriteColumn(state, c, [b0, b1, b2, b3], s, done);
      c := c + 1;
    }
    AllColumnsDone(s, done, state[..]);
  }

  method InvMixColumnsInPlace(state: array<bv8>)
    requires state.Length == 16
    modifies state
    ensures state[..] == InvMixColumns(old(state[..]))
  {
    ghost var s, done := state[..], InvMixColumns(state[..]);
    var c := 0;
    while c < 4
      invariant 0 <= c <= 4 && ColumnsDone(s, done, state[..], c)
    {
      ghost var a := Column(state[..], c);
      UnmixedColumnIs(s, c);
      var a0, a1, a2, a3 := state[4 * c], state[4 * c + 1], state[4 * c + 2], state[4 * c + 3];
      var b0 := UnmixByte(a0, a1, a2, a3);
      var b1 := UnmixByte(a1, a2, a3, a0);
      var b2 := UnmixByte(a2, a3, a0, a1);
      var b3 := UnmixByte(a3, a0, a1, a2);
      WriteColumn(state, c, [b0, b1, b2, b3], s, done);
      c := c + 1;
    }
    AllColumnsDone(s, done, state[..]);
  }

  method AddRoundKey(state: array<bv8>, rk: Bytes, r: nat)
    requires state.Length == 16 && |rk| == ROUND_KEY_BYTES && r <= ROUNDS
    modifies state
    ensures state[..] == XorBytes(old(state[..]), RoundKey(rk, r))
  {
    var i := 0;
    while i < 16
      invariant 0 <= i <= 16
      invariant forall j :: 0 <= j < 16 ==> state[j] == if j < i then Xor(old(state[j]), rk[16 * r + j]) else old(state[j])
    {
      state[i] := Xor(state[i], rk[16 * r + i]);
      i := i + 1;
    }
  }

  method RoundInPlace(state: array<bv8>, rk: Bytes, round: nat)
    requires state.Length == 16 && |rk| == ROUND_KEY_BYTES && round <= ROUNDS
    modifies state
    ensures state[..] == Round(rk, old(state[..]), round)
  {
    SubBytesInPlace(state);
    ShiftRowsInPlace(state);
    MixColumnsInPlace(state);
    AddRoundKey(state, rk, round);
  }

  method LastRoundInPlace(state: array<bv8>, rk: Bytes)
    requires state.Length == 16 && |rk| == ROUND_KEY_BYTES
    modifies state
    ensures state[..] == LastRound(rk, old(state[..]))
  {
    SubBytesInPlace(state);
    ShiftRowsInPlace(state);
    AddRoundKey(state, rk, ROUNDS);
  }

  method InvRoundInPlace(state: array<bv8>, rk: Bytes, round: nat)
    requires state.Length == 16 && |rk| == ROUND_KEY_BYTES && round <= ROUNDS
    modifies state
    ensures state[..] == InvRound(rk, old(state[..]), round)
  {
    InvShiftRowsInPlace(state);
    InvSubBytesInPlace(state);
    AddRoundKey(state, rk, round);
    InvMixColumnsInPlace(state);
  }

  method InvLastRoundInPlace(state: array<bv8>, rk: Bytes)
    requires state.Length == 16 && |rk| == ROUND_KEY_BYTES
    modifies state
    ensures state[..] == InvLastRound(rk, old(state[..]))
  {
    InvShiftRowsInPlace(state);
    InvSubBytesInPlace(state);
    AddRoundKey(state, rk, 0);
  }

  method Loaded(input: Bytes) returns (state: array<bv8>)
    requires |input| == 16
    ensures fresh(state) && state.Length == 16 && state[..] == input
  {
    state := new bv8[16];
    var i := 0;
    while i < 16
      invariant 0 <= i <= 16 && state[..i] == input[..i]
    {
      state[i] := input[i];
      i := i + 1;
    }
  }

  method EncryptBlock(rk: Bytes, input: Bytes) returns (out: Bytes)
    requires |rk| == ROUND_KEY_BYTES && |input| == 16
    ensures out == Encrypt(rk, input)
  {
    var state := Loaded(input);
    AddRoundKey(state, rk, 0);
    var round := 1;
    ghost var r: nat := 0;
    while round < ROUNDS
      invariant r + 1 == round <= ROUNDS && state[..] == EncRound(rk, input, r)
    {
      RoundInPlace(state, rk, round);
      EncRoundStep(rk, input, r, round);
      r := round;
      round := round + 1;
    }
    LastRoundInPlace(state, rk);
    out := state[..];
  }

  method DecryptBlock(rk: Bytes, input: Bytes) returns (out: Bytes)
    requires |rk| == ROUND_KEY_BYTES && |input| == 16
    ensures out == Decrypt(rk, input)
  {
    var state := Loaded(input);
    AddRoundKey(state, rk, ROUNDS);
    var round := 9;
    while round >= 1
      invariant 0 <= round < ROUNDS && state[..] == DecRound(rk, input, round)
    {
      InvRoundInPlace(state, rk, round);
      var next := round - 1;
      DecRoundStep(rk, input, round, next);
      round := next;
    }
    assert round == 0;
    InvLastRoundInPlace(state, rk);
    out := state[..];
  }
}
