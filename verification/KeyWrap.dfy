/** AES key wrap (RFC 3394): unwrapping undoes the 6n wrapping steps in reverse. */
module KeyWrap {
  import opened GaloisField
  import opened Limbs
  import opened Octets
  import opened BigEndians

  /** The integrity register and the n eight-byte blocks, end to end. */
  datatype State = State(a: Bytes, r: Bytes)

  ghost predicate Holds(s: State, n: nat) {
    |s.a| == 8 && |s.r| == 8 * n
  }

  const DEFAULT_IV: Bytes := [0xa6, 0xa6, 0xa6, 0xa6, 0xa6, 0xa6, 0xa6, 0xa6]

  function Block(r: Bytes, i: nat): (b: Bytes)
    requires 8 * i + 8 <= |r|
    ensures |b| == 8
  {
    r[8 * i..8 * i + 8]
  }

  function SetBlock(r: Bytes, i: nat, b: Bytes): (r': Bytes)
    requires 8 * i + 8 <= |r| && |b| == 8
    ensures |r'| == |r|
  {
    r[..8 * i] + b + r[8 * i + 8..]
  }

  lemma SetBlockTwice(r: Bytes, i: nat, b: Bytes)
    requires 8 * i + 8 <= |r| && |b| == 8
    ensures Block(SetBlock(r, i, b), i) == b && SetBlock(SetBlock(r, i, b), i, Block(r, i)) == r
  {
  }

  /** Which block step t works on; steps are numbered from 1. */
  function Turn(n: nat, t: nat): (i: nat)
    requires n > 0 && t > 0
    ensures i < n
  {
    (t - 1) % n
  }

  /** Section 2.2.1: encrypt register and block together, fold the step number into the register. */
  ghost function WrapStep(e: Cipher, s: State, n: nat, t: nat): (s': State)
    requires Blockwise(e) && n > 0 && t > 0 && Holds(s, n)
    ensures Holds(s', n)
  {
    var i := Turn(n, t);
    var b := e(s.a + Block(s.r, i));
    State(XorBytes(b[..8], BigEndian(t, 8)), SetBlock(s.r, i, b[8..]))
  }

  ghost function UnwrapStep(d: Cipher, s: State, n: nat, t: nat): (s': State)
    requires Blockwise(d) && n > 0 && t > 0 && Holds(s, n)
    ensures Holds(s', n)
  {
    var i := Turn(n, t);
    var b := d(XorBytes(s.a, BigEndian(t, 8)) + Block(s.r, i));
    State(b[..8], SetBlock(s.r, i, b[8..]))
  }

  lemma StepInverts(e: Cipher, d: Cipher, s: State, n: nat, t: nat)
    requires Inverse(e, d) && n > 0 && t > 0 && Holds(s, n)
    ensures UnwrapStep(d, WrapStep(e, s, n, t), n, t) == s
  {
    var i := Turn(n, t);
    var whole := s.a + Block(s.r, i);
    var b := e(whole);
    XorBytesInverse(b[..8], BigEndian(t, 8));
    SetBlockTwice(s.r, i, b[8..]);
    assert b[..8] + b[8..] == b;
    assert whole[..8] == s.a && whole[8..] == Block(s.r, i);
  }

  /** The first t wrapping steps. */
  ghost function Wrapped(e: Cipher, s: State, n: nat, t: nat): (s': State)
    requires Blockwise(e) && n > 0 && Holds(s, n)
    ensures Holds(s', n)
  {
    if t == 0 then s else WrapStep(e, Wrapped(e, s, n, t - 1), n, t)
  }

  /** Steps t down to 1 undone. */
  ghost function Unwrapped(d: Cipher, s: State, n: nat, t: nat): (s': State)
    requires Blockwise(d) && n > 0 && Holds(s, n)
    ensures Holds(s', n)
    decreases t
  {
    if t == 0 then s else Unwrapped(d, UnwrapStep(d, s, n, t), n, t - 1)
  }

  lemma WrappedNext(e: Cipher, s: State, n: nat, u: nat, t: nat)
    requires Blockwise(e) && n > 0 && Holds(s, n) && t == u + 1
    ensures Wrapped(e, s, n, t) == WrapStep(e, Wrapped(e, s, n, u), n, t)
  {
  }

  lemma UnwrappedNext(d: Cipher, s: State, n: nat, u: nat, t: nat)
    requires Blockwise(d) && n > 0 && Holds(s, n) && t == u + 1
    ensures Unwrapped(d, s, n, t) == Unwrapped(d, UnwrapStep(d, s, n, t), n, u)
  {
  }

  lemma {:induction false} UnwrappedInverts(e: Cipher, d: Cipher, s: State, n: nat, t: nat)
    requires Inverse(e, d) && n > 0 && Holds(s, n)
    ensures Unwrapped(d, Wrapped(e, s, n, t), n, t) == s
    decreases t
  {
    if t > 0 {
      var u := t - 1;
      WrappedNext(e, s, n, u, t);
      StepInverts(e, d, Wrapped(e, s, n, u), n, t);
      UnwrappedNext(d, Wrapped(e, s, n, t), n, u, t);
      UnwrappedInverts(e, d, s, n, u);
    }
  }

  // ---------- the same as a shift register ----------

  /** The other description in section 2.2.1 of RFC 3394: the first block is used up and the new one joins at the end. */
  ghost function ShiftStep(e: Cipher, s: State, n: nat, t: nat): (s': State)
    requires Blockwise(e) && n > 0 && Holds(s, n)
    ensures Holds(s', n)
  {
    var b := e(s.a + s.r[..8]);
    State(XorBytes(b[..8], BigEndian(t, 8)), s.r[8..] + b[8..])
  }

  ghost function Shifted(e: Cipher, s: State, n: nat, t: nat): (s': State)
    requires Blockwise(e) && n > 0 && Holds(s, n)
    ensures Holds(s', n)
  {
    if t == 0 then s else ShiftStep(e, Shifted(e, s, n, t - 1), n, t)
  }

  /** The blocks from block i on, then those before it. */
  ghost function Rotated(r: Bytes, i: nat): (r': Bytes)
    requires 8 * i <= |r|
    ensures |r'| == |r|
  {
    r[8 * i..] + r[..8 * i]
  }

  lemma RotatedStep(r: Bytes, n: nat, i: nat, x: Bytes, next: nat)
    requires |r| == 8 * n && i < n && |x| == 8 && next == if i + 1 == n then 0 else i + 1
    ensures Rotated(r, i)[..8] == Block(r, i)
    ensures Rotated(r, i)[8..] + x == Rotated(SetBlock(r, i, x), next)
  {
    var r' := SetBlock(r, i, x);
    if i + 1 == n {
      assert r'[8 * next..] == r' && r'[..8 * next] == [] && r[8 * i + 8..] == [];
    } else {
      assert r'[8 * next..] == r[8 * i + 8..] && r'[..8 * next] == r[..8 * i] + x;
    }
  }

  /** Both descriptions wrap alike: after t steps the register is turned by t blocks. */
  lemma {:induction false} ShiftedIs(e: Cipher, s: State, n: nat, t: nat)
    requires Blockwise(e) && n > 0 && Holds(s, n)
    ensures Shifted(e, s, n, t) == State(Wrapped(e, s, n, t).a, Rotated(Wrapped(e, s, n, t).r, t % n))
    decreases t
  {
    if t == 0 {
      assert Rotated(s.r, 0) == s.r;
    } else {
      var u := t - 1;
      ShiftedIs(e, s, n, u);
      WrappedNext(e, s, n, u, t);
      ShiftStepIs(e, Wrapped(e, s, n, u), n, u, t);
      ShiftedNext(e, s, n, u, t);
    }
  }

  lemma ShiftedNext(e: Cipher, s: State, n: nat, u: nat, t: nat)
    requires Blockwise(e) && n > 0 && Holds(s, n) && t == u + 1
    ensures Shifted(e, s, n, t) == ShiftStep(e, Shifted(e, s, n, u), n, t)
  {
  }

  lemma ShiftStepIs(e: Cipher, w: State, n: nat, u: nat, t: nat)
    requires Blockwise(e) && n > 0 && Holds(w, n) && t == u + 1
    ensures ShiftStep(e, State(w.a, Rotated(w.r, u % n)), n, t) == State(WrapStep(e, w, n, t).a, Rotated(WrapStep(e, w, n, t).r, t % n))
  {
    var i := u % n;
    var b := e(w.a + Block(w.r, i));
    NextTurn(u, t, n, i);
    RotatedStep(w.r, n, i, b[8..], t % n);
    assert Turn(n, t) == i;
  }

  lemma NextTurn(u: nat, t: nat, n: nat, i: nat)
    requires n > 0 && t == u + 1 && i == u % n
    ensures t % n == if i + 1 == n then 0 else i + 1
  {
    var q := u / n;
    MulCommutes(q, n);
    if i + 1 == n {
      MulAdd(q, 1, n);
      DivModUnique(t, n, q + 1, 0);
    } else {
      DivModUnique(t, n, q, i + 1);
    }
  }

  /** Six passes of either make the same wrapped key. */
  lemma ShiftWraps(e: Cipher, key: Bytes, n: nat)
    requires Blockwise(e) && n > 0 && |key| == 8 * n
    ensures var s := Shifted(e, State(Fill(0xa6, 8), key), n, 6 * n); Wrap(e, key, n) == s.a + s.r
  {
    var start := State(DEFAULT_IV, key);
    assert DEFAULT_IV == Fill(0xa6, 8);
    ShiftedIs(e, start, n, 6 * n);
    DivModUnique(6 * n, n, 6, 0);
    var w := Wrapped(e, start, n, 6 * n);
    assert Rotated(w.r, 0) == w.r;
  }

  /** A key of n blocks, wrapped: the register followed by the blocks. */
  ghost function Wrap(e: Cipher, key: Bytes, n: nat): (w: Bytes)
    requires Blockwise(e) && n > 0 && |key| == 8 * n
    ensures |w| == 8 * (n + 1)
  {
    var s := Wrapped(e, State(DEFAULT_IV, key), n, 6 * n);
    s.a + s.r
  }

  /** What unwrapping yields: the register to compare with the default value, and the key. */
  ghost function Unwrap(d: Cipher, wrapped: Bytes, n: nat): (s: State)
    requires Blockwise(d) && n > 0 && |wrapped| == 8 * (n + 1)
    ensures Holds(s, n)
  {
    Unwrapped(d, State(wrapped[..8], wrapped[8..]), n, 6 * n)
  }

  /** Unwrapping a wrapped key passes the integrity test and returns the key, however many blocks it has. */
  lemma UnwrapInvertsWrap(e: Cipher, d: Cipher, key: Bytes, n: nat)
    requires Inverse(e, d) && n > 0 && |key| == 8 * n
    ensures Unwrap(d, Wrap(e, key, n), n) == State(DEFAULT_IV, key)
  {
    var s := Wrapped(e, State(DEFAULT_IV, key), n, 6 * n);
    var w := s.a + s.r;
    assert w[..8] == s.a && w[8..] == s.r;
    UnwrappedInverts(e, d, State(DEFAULT_IV, key), n, 6 * n);
  }

  // ---------- unwrapping in the caller's buffer ----------

  lemma TurnIs(n: nat, j: nat, idx: nat, t: nat)
    requires 1 <= idx <= n && t == n * j + idx
    ensures t > 0 && Turn(n, t) == idx - 1
  {
    MulCommutes(n, j);
    MulLe(0, j, n);
    DivModUnique(t - 1, n, j, idx - 1);
  }

  method FoldStep(a: Bytes, t: nat) returns (x: Bytes)
    requires |a| == 8
    ensures x == XorBytes(a, BigEndian(t, 8))
  {
    var tb := PutBigEndian(t, 8);
    x := [];
    var i := 0;
    while i < 8
      invariant 0 <= i <= 8 && |x| == i && forall j :: 0 <= j < i ==> x[j] == Xor(a[j], tb[j])
    {
      x := x + [Xor(a[i], tb[i])];
      i := i + 1;
    }
  }

  method WriteEight(out: array<bv8>, i: nat, b: Bytes)
    requires 8 * i + 8 <= out.Length && |b| == 8
    modifies out
    ensures out[..] == SetBlock(old(out[..]), i, b)
  {
    var at, k := 8 * i, 0;
    while k < 8
      invariant 0 <= k <= 8
      invariant out[..at] == old(out[..at]) && out[at..at + k] == b[..k] && out[at + 8..] == old(out[at + 8..])
    {
      out[at + k] := b[k];
      k := k + 1;
    }
    assert out[..] == out[..at] + out[at..at + 8] + out[at + 8..];
  }

  /** Blocks of the buffer's first n are blocks of the buffer. */
  lemma SetInPrefix(r: Bytes, n: nat, i: nat, b: Bytes)
    requires i < n && 8 * n <= |r| && |b| == 8
    ensures Block(r[..8 * n], i) == Block(r, i)
    ensures SetBlock(r, i, b)[..8 * n] == SetBlock(r[..8 * n], i, b) && SetBlock(r, i, b)[8 * n..] == r[8 * n..]
  {
  }

  /** One step, written back into the buffer. */
  method UndoStep(d: Cipher, a: Bytes, out: array<bv8>, n: nat, idx: nat, t: nat) returns (a': Bytes)
    requires Blockwise(d) && |a| == 8 && 8 * n <= out.Length && 1 <= idx <= n && t > 0 && Turn(n, t) == idx - 1
    modifies out
    ensures State(a', out[..8 * n]) == UnwrapStep(d, State(a, old(out[..8 * n])), n, t)
    ensures out[8 * n..] == old(out[8 * n..])
  {
    var i := idx - 1;
    var x := FoldStep(a, t);
    var block := x + Block(out[..], i);
    var decrypted := d(block);
    SetInPrefix(out[..], n, i, decrypted[8..]);
    a' := decrypted[..8];
    WriteEight(out, i, decrypted[8..]);
  }

  /** What the passes start from: the wrapped blocks, unless their length in bytes is negative as a signed
      word and the copy loop does not run. */
  ghost function Loaded(wrapped: Bytes, was: Bytes): (r: Bytes)
    requires |wrapped| == |was| + 8
    ensures |r| == |was|
  {
    if |was| < 0x8000_0000 then wrapped[8..] else was
  }

  /** Accepts exactly when unwrapping restores the default register; the buffer then holds the key. */
  method AesKeyUnwrap(d: Cipher, wrapped: Bytes, out: array<bv8>) returns (ok: bool)
    requires Blockwise(d) && |wrapped| < 0x1_0000_0000 && |wrapped| <= out.Length + 8
    modifies out
    ensures |wrapped| < 16 || |wrapped| % 8 != 0 ==> !ok && out[..] == old(out[..])
    ensures |wrapped| >= 16 && |wrapped| % 8 == 0 ==>
      var n := |wrapped| / 8 - 1;
      var r := Unwrapped(d, State(wrapped[..8], Loaded(wrapped, old(out[..8 * n]))), n, 6 * n);
      && (|wrapped| < 0x8000_0008 ==> r == Unwrap(d, wrapped, n))
      && ok == (r.a == DEFAULT_IV) && out[..8 * n] == r.r && out[8 * n..] == old(out[8 * n..])
  {
    if |wrapped| < 16 || |wrapped| % 8 != 0 {
      return false;
    }
    ok := UnwrapBlocks(d, wrapped, out, |wrapped| / 8 - 1);
  }

  method UnwrapBlocks(d: Cipher, wrapped: Bytes, out: array<bv8>, n: nat) returns (ok: bool)
    requires Blockwise(d) && n > 0 && |wrapped| == 8 * (n + 1) && 8 * n <= out.Length
    modifies out
    ensures var r := Unwrapped(d, State(wrapped[..8], Loaded(wrapped, old(out[..8 * n]))), n, 6 * n);
      ok == (r.a == DEFAULT_IV) && out[..8 * n] == r.r && out[8 * n..] == old(out[8 * n..])
  {
    ghost var start := Loaded(wrapped, out[..8 * n]);
    if 8 * n < 0x8000_0000 {
      LoadBlocks(wrapped[8..], out);
    }
    assert out[..8 * n] == start;
    var a := UndoAll(d, wrapped[..8], out, n, Unwrapped(d, State(wrapped[..8], start), n, 6 * n));
    ok := a == DEFAULT_IV;
  }

  /** All six passes. */
  method UndoAll(d: Cipher, a: Bytes, out: array<bv8>, n: nat, ghost result: State) returns (a': Bytes)
    requires Blockwise(d) && |a| == 8 && n > 0 && 8 * n <= out.Length
    requires Unwrapped(d, State(a, out[..8 * n]), n, 6 * n) == result
    modifies out
    ensures State(a', out[..8 * n]) == result && out[8 * n..] == old(out[8 * n..])
  {
    a' := a;
    ghost var t: nat := 6 * n;
    var j := 5;
    MulCommutes(6, n);
    while j >= 0
      invariant -1 <= j <= 5 && t == n * (j + 1) && |a'| == 8 && out[8 * n..] == old(out[8 * n..])
      invariant Unwrapped(d, State(a', out[..8 * n]), n, t) == result && (j < 0 ==> t == 0)
    {
      MulAdd(j, 1, n);
      MulCommutes(n, j + 1);
      MulCommutes(n, j);
      NoneLeft(n, j);
      a', t := UndoPass(d, a', out, n, j, t, result);
      j := j - 1;
    }
  }

  lemma NoneLeft(n: nat, j: nat)
    ensures j == 0 ==> n * j == 0
  {
  }

  /** One pass over the blocks, last first. */
  method UndoPass(d: Cipher, a: Bytes, out: array<bv8>, n: nat, j: nat, ghost t: nat, ghost result: State)
    returns (a': Bytes, ghost t': nat)
    requires Blockwise(d) && |a| == 8 && n > 0 && 8 * n <= out.Length && t == n * j + n
    requires Unwrapped(d, State(a, out[..8 * n]), n, t) == result
    modifies out
    ensures t' == n * j && |a'| == 8 && out[8 * n..] == old(out[8 * n..])
    ensures Unwrapped(d, State(a', out[..8 * n]), n, t') == result
  {
    a', t' := a, t;
    var idx := n;
    while idx >= 1
      invariant 0 <= idx <= n && t' == n * j + idx && |a'| == 8 && out[8 * n..] == old(out[8 * n..])
      invariant Unwrapped(d, State(a', out[..8 * n]), n, t') == result
    {
      TurnIs(n, j, idx, t');
      ghost var u := t' - 1;
      UnwrappedNext(d, State(a', out[..8 * n]), n, u, t');
      a' := UndoStep(d, a', out, n, idx, n * j + idx);
      idx, t' := idx - 1, u;
    }
  }

  method LoadBlocks(from: Bytes, out: array<bv8>)
    requires |from| <= out.Length
    modifies out
    ensures out[..|from|] == from && out[|from|..] == old(out[|from|..])
  {
    var i := 0;
    while i < |from|
      invariant 0 <= i <= |from| && out[..i] == from[..i] && out[i..] == old(out[i..])
    {
      out[i] := from[i];
      i := i + 1;
    }
  }
}
