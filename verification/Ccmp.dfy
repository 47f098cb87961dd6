/** CCMP packet numbers: 48-bit counters kept as six bytes, transmit nonces and replay protection. */
module Ccmp {
  import opened Limbs

  const PN_LIMIT: nat := 0x1_0000_0000_0000

  ghost predicate IsPn(s: seq<Byte>) {
    |s| == 6
  }

  /** The number in bytes i and up, PN0 least significant. */
  ghost function ValueFrom(s: seq<Byte>, i: nat): nat
    requires IsPn(s) && i <= 6
    decreases 6 - i
  {
    if i == 6 then 0 else s[i] as nat + 256 * ValueFrom(s, i + 1)
  }

  ghost function Value(s: seq<Byte>): nat
    requires IsPn(s)
  {
    ValueFrom(s, 0)
  }

  /** One past the largest value of bytes i and up. */
  ghost function Limit(i: nat): (n: nat)
    requires i <= 6
    ensures n > 0
    decreases 6 - i
  {
    if i == 6 then 1 else 256 * Limit(i + 1)
  }

  lemma LimitIs()
    ensures Limit(0) == PN_LIMIT
  {
    assert Limit(3) == 0x100_0000;
  }

  lemma {:induction false} ValueBelow(s: seq<Byte>, i: nat)
    requires IsPn(s) && i <= 6
    ensures ValueFrom(s, i) < Limit(i)
    decreases 6 - i
  {
    if i < 6 {
      ValueBelow(s, i + 1);
    }
  }

  lemma {:induction false} ValueInjective(s: seq<Byte>, t: seq<Byte>, i: nat)
    requires IsPn(s) && IsPn(t) && i <= 6 && ValueFrom(s, i) == ValueFrom(t, i)
    ensures s[i..] == t[i..]
    decreases 6 - i
  {
    if i < 6 {
      ValueInjective(s, t, i + 1);
      assert s[i..] == [s[i]] + s[i + 1..] && t[i..] == [t[i]] + t[i + 1..];
    }
  }

  // ---------- incrementing ----------

  /** Add one with carry, from byte i on. */
  ghost function Increment(s: seq<Byte>, i: nat): (r: seq<Byte>)
    requires IsPn(s) && i <= 6
    ensures IsPn(r)
    decreases 6 - i
  {
    if i == 6 then s
    else if s[i] == 255 then Increment(s[i := 0], i + 1)
    else s[i := s[i] + 1]
  }

  lemma {:induction false} ValueFromFrame(s: seq<Byte>, t: seq<Byte>, i: nat)
    requires IsPn(s) && IsPn(t) && i <= 6 && (forall j :: i <= j < 6 ==> s[j] == t[j])
    ensures ValueFrom(s, i) == ValueFrom(t, i)
    decreases 6 - i
  {
    if i < 6 {
      ValueFromFrame(s, t, i + 1);
    }
  }

  lemma {:induction false} IncrementKeepsLow(s: seq<Byte>, i: nat)
    requires IsPn(s) && i <= 6
    ensures forall j :: 0 <= j < i ==> Increment(s, i)[j] == s[j]
    decreases 6 - i
  {
    if i < 6 && s[i] == 255 {
      IncrementKeepsLow(s[i := 0], i + 1);
    }
  }

  lemma {:induction false} IncrementValue(s: seq<Byte>, i: nat)
    requires IsPn(s) && i <= 6
    ensures ValueFrom(Increment(s, i), i) == if ValueFrom(s, i) + 1 == Limit(i) then 0 else ValueFrom(s, i) + 1
    decreases 6 - i
  {
    if i < 6 {
      ValueBelow(s, i + 1);
      if s[i] == 255 {
        var t := s[i := 0];
        IncrementValue(t, i + 1);
        IncrementKeepsLow(t, i + 1);
        ValueFromFrame(s, t, i + 1);
      } else {
        ValueFromFrame(s, s[i := s[i] + 1], i + 1);
      }
    }
  }

  method PnIncrement(pn: array<Byte>)
    requires pn.Length == 6
    modifies pn
    ensures pn[..] == Increment(old(pn[..]), 0)
    ensures Value(pn[..]) == (Value(old(pn[..])) + 1) % PN_LIMIT
  {
    ghost var start := pn[..];
    var i, done := 0, false;
    while i < 6 && !done
      invariant 0 <= i <= 6 && (if done then pn[..] == Increment(start, 0) else Increment(pn[..], i) == Increment(start, 0))
      decreases 6 - i, !done
    {
      ghost var before := pn[..];
      pn[i] := (pn[i] as nat + 1) % 256;
      assert pn[..] == before[i := (before[i] as nat + 1) % 256];
      if pn[i] != 0 {
        done := true;
      } else {
        i := i + 1;
      }
    }
    IncrementValue(start, 0);
    ValueBelow(start, 0);
    LimitIs();
  }

  // ---------- comparing ----------

  lemma {:induction false} HighDecides(a: seq<Byte>, b: seq<Byte>, i: nat)
    requires IsPn(a) && IsPn(b) && i <= 6 && ValueFrom(a, i) > ValueFrom(b, i)
    ensures Value(a) > Value(b)
    decreases i
  {
    if i > 0 {
      HighDecides(a, b, i - 1);
    }
  }

  /** 48-bit unsigned comparison, from the top byte down. */
  method PnGreater(a: seq<Byte>, b: seq<Byte>) returns (greater: bool)
    requires IsPn(a) && IsPn(b)
    ensures greater <==> Value(a) > Value(b)
  {
    var i := 6;
    while i > 0
      invariant 0 <= i <= 6 && ValueFrom(a, i) == ValueFrom(b, i)
    {
      i := i - 1;
      if a[i] != b[i] {
        greater := a[i] > b[i];
        if greater {
          HighDecides(a, b, i);
        } else {
          HighDecides(b, a, i);
        }
        return;
      }
    }
    return false;
  }

  // ---------- nonces ----------

  /** TID, transmitter address, then the packet number most significant byte first. */
  function Nonce(tid: Byte, a2: seq<Byte>, pn: seq<Byte>): (n: seq<Byte>)
    requires |a2| == 6 && |pn| == 6
    ensures |n| == 13
  {
    [tid % 16] + a2 + Reversed(pn)
  }

  function Reversed(pn: seq<Byte>): (r: seq<Byte>)
    requires |pn| == 6
    ensures |r| == 6
  {
    [pn[5], pn[4], pn[3], pn[2], pn[1], pn[0]]
  }

  /** Byte by byte: the TID, the six bytes of the address, then PN5 down to PN0. */
  lemma NonceBytes(tid: Byte, a2: seq<Byte>, pn: seq<Byte>, i: nat)
    requires |a2| == |pn| == 6 && i < 6
    ensures var n := Nonce(tid, a2, pn); n[0] == tid % 16 && n[1 + i] == a2[i] && n[7 + i] == pn[5 - i]
  {
  }

  lemma NonceInjective(tid: Byte, a2: seq<Byte>, p: seq<Byte>, q: seq<Byte>)
    requires |a2| == 6 && IsPn(p) && IsPn(q) && Nonce(tid, a2, p) == Nonce(tid, a2, q)
    ensures p == q
  {
    var m, n := Nonce(tid, a2, p), Nonce(tid, a2, q);
    assert m[7..] == Reversed(p) && n[7..] == Reversed(q);
    assert p == Reversed(Reversed(p)) && q == Reversed(Reversed(q));
  }

  method BuildCcmpNonce(tid: Byte, a2: seq<Byte>, pn: seq<Byte>) returns (nonce: seq<Byte>)
    requires |a2| == 6 && |pn| == 6
    ensures nonce == Nonce(tid, a2, pn)
  {
    nonce := [tid % 16] + a2;
    var i := 0;
    while i < 6
      invariant 0 <= i <= 6 && nonce == [tid % 16] + a2 + Reversed(pn)[..i]
    {
      nonce := nonce + [pn[5 - i]];
      i := i + 1;
    }
  }

  /** Steps within one cycle of the counter never meet, steps a whole cycle apart always do. */
  lemma SameResidue(j: nat, k: nat)
    requires j <= k
    ensures (j + 1) % PN_LIMIT == (k + 1) % PN_LIMIT <==> (k - j) % PN_LIMIT == 0
  {
  }

  // ---------- a key in use ----------

  /** Packet number k since the key was installed: numbers count from 1. */
  ghost predicate SentAt(sent: seq<seq<Byte>>, k: nat) {
    k < |sent| ==> IsPn(sent[k]) && Value(sent[k]) == (k + 1) % PN_LIMIT
  }

  ghost predicate Increasing(pns: seq<nat>) {
    forall i, j :: 0 <= i < j < |pns| ==> pns[i] < pns[j]
  }

  /** What is kept for TID t is the last value accepted on it. */
  ghost predicate RxAt(pns: seq<seq<Byte>>, valid: seq<bool>, accepted: seq<seq<nat>>, t: nat) {
    |pns| == |valid| == |accepted| == 8 && (t < 8 ==>
      && Increasing(accepted[t]) && (valid[t] <==> accepted[t] != [])
      && (valid[t] ==> IsPn(pns[t]) && Value(pns[t]) == accepted[t][|accepted[t]| - 1]))
  }

  class Key {
    const txPn: array<Byte>
    const rxPn: array<seq<Byte>>
    const rxValid: array<bool>
    /** Packet numbers sent, and values accepted per TID, since installation. */
    ghost var sent: seq<seq<Byte>>
    ghost var accepted: seq<seq<nat>>

    ghost predicate Valid()
      reads this, txPn, rxPn, rxValid
    {
      && txPn.Length == 6 && rxPn.Length == rxValid.Length == |accepted| == 8
      && Value(txPn[..]) == |sent| % PN_LIMIT && (forall k: nat {:trigger SentAt(sent, k)} :: SentAt(sent, k))
      && (forall t: nat {:trigger RxAt(rxPn[..], rxValid[..], accepted, t)} :: RxAt(rxPn[..], rxValid[..], accepted, t))
    }

    /** A newly installed key starts both directions afresh. */
    constructor ()
      ensures Valid() && sent == [] && accepted == seq(8, i => []) && fresh(txPn) && fresh(rxPn) && fresh(rxValid)
    {
      txPn := new Byte[6](_ => 0);
      rxPn := new seq<Byte>[8](_ => []);
      rxValid := new bool[8](_ => false);
      sent, accepted := [], seq(8, i => []);
      new;
      ZeroValue(txPn[..]);
    }

    /** The nonce of the next protected frame. */
    method NextNonce(tid: Byte, a2: seq<Byte>) returns (nonce: seq<Byte>)
      requires Valid() && |a2| == 6
      modifies txPn, `sent
      ensures Valid() && sent == old(sent) + [txPn[..]] && nonce == Nonce(tid, a2, txPn[..])
    {
      PnIncrement(txPn);
      ghost var pn, before := txPn[..], sent;
      NextResidue(|sent|);
      sent := sent + [pn];
      ghost var now := sent;
      forall k: nat ensures SentAt(now, k) {
        assert SentAt(before, k);
      }
      nonce := BuildCcmpNonce(tid, a2, txPn[..]);
    }

    /** Replay protection: a protected frame is accepted only beyond the last one accepted on its TID. */
    method Receive(tid: nat, pn: seq<Byte>, fits: bool, authentic: bool) returns (ok: bool)
      requires Valid() && IsPn(pn)
      modifies rxPn, rxValid, `accepted
      ensures Valid()
      ensures ok <==> tid <= 7 && fits && authentic && forall v :: v in old(accepted)[tid] ==> v < Value(pn)
      ensures accepted == if ok then old(accepted)[tid := old(accepted)[tid] + [Value(pn)]] else old(accepted)
    {
      ok := false;
      if tid <= 7 {
        assert RxAt(rxPn[..], rxValid[..], accepted, tid);
        ok := true;
        if rxValid[tid] {
          ok := PnGreater(pn, rxPn[tid]);
          BeyondAll(accepted[tid], Value(pn));
        }
        ok := ok && fits && authentic;
        if ok {
          Accept(tid, pn);
        }
      }
    }

    method Accept(tid: nat, pn: seq<Byte>)
      requires Valid() && IsPn(pn) && tid <= 7 && (accepted[tid] != [] ==> accepted[tid][|accepted[tid]| - 1] < Value(pn))
      modifies rxPn, rxValid, `accepted
      ensures Valid() && accepted == old(accepted)[tid := old(accepted)[tid] + [Value(pn)]]
    {
      ghost var pns, valid, acc := rxPn[..], rxValid[..], accepted;
      assert RxAt(pns, valid, acc, tid);
      Extend(accepted[tid], Value(pn));
      rxPn[tid] := pn;
      rxValid[tid] := true;
      accepted := accepted[tid := accepted[tid] + [Value(pn)]];
      ghost var pns', valid', acc' := rxPn[..], rxValid[..], accepted;
      forall t: nat ensures RxAt(pns', valid', acc', t) {
        assert RxAt(pns, valid, acc, t);
      }
    }
  }

  lemma ZeroValue(s: seq<Byte>)
    requires IsPn(s) && forall i :: 0 <= i < 6 ==> s[i] == 0
    ensures Value(s) == 0
  {
    assert ValueFrom(s, 3) == 0;
  }

  lemma NextResidue(n: nat)
    ensures (n % PN_LIMIT + 1) % PN_LIMIT == (n + 1) % PN_LIMIT
  {
  }

  lemma BeyondAll(pns: seq<nat>, v: nat)
    requires Increasing(pns) && pns != []
    ensures pns[|pns| - 1] < v <==> forall x :: x in pns ==> x < v
  {
    assert pns[|pns| - 1] in pns;
  }

  lemma Extend(pns: seq<nat>, v: nat)
    requires Increasing(pns) && (pns != [] ==> pns[|pns| - 1] < v)
    ensures Increasing(pns + [v])
  {
  }

  /** Two transmit nonces of one key coincide exactly when they are a multiple of 2^48 frames apart. */
  lemma NoncesRepeatIff(key: Key, tid: Byte, a2: seq<Byte>, j: nat, k: nat)
    requires key.Valid() && |a2| == 6 && j <= k < |key.sent|
    ensures IsPn(key.sent[j]) && IsPn(key.sent[k])
    ensures Nonce(tid, a2, key.sent[j]) == Nonce(tid, a2, key.sent[k]) <==> (k - j) % PN_LIMIT == 0
  {
    assert SentAt(key.sent, j) && SentAt(key.sent, k);
    SameResidue(j, k);
    if Nonce(tid, a2, key.sent[j]) == Nonce(tid, a2, key.sent[k]) {
      NonceInjective(tid, a2, key.sent[j], key.sent[k]);
    }
    if (k - j) % PN_LIMIT == 0 {
      ValueInjective(key.sent[j], key.sent[k], 0);
      assert key.sent[j][0..] == key.sent[j] && key.sent[k][0..] == key.sent[k];
    }
  }

  /** On each TID, accepted packet numbers strictly increase, so none is accepted twice. */
  lemma AcceptedOnce(key: Key, t: nat, i: nat, j: nat)
    requires key.Valid() && t < 8 && i < j < |key.accepted[t]|
    ensures key.accepted[t][i] < key.accepted[t][j]
  {
    assert RxAt(key.rxPn[..], key.rxValid[..], key.accepted, t);
  }

  // ---------- runs ----------

  ghost predicate NonceAt(sent: seq<seq<Byte>>, first: nat, tid: Byte, a2: seq<Byte>, nonces: seq<seq<Byte>>, k: nat)
    requires |a2| == 6
  {
    k < |nonces| ==> first + k < |sent| && IsPn(sent[first + k]) && nonces[k] == Nonce(tid, a2, sent[first + k])
  }

  /** The nonces of the packet numbers sent from `first` on. */
  ghost predicate NoncesOf(sent: seq<seq<Byte>>, first: nat, tid: Byte, a2: seq<Byte>, nonces: seq<seq<Byte>>)
    requires |a2| == 6
  {
    |sent| == first + |nonces| && forall k: nat {:trigger NonceAt(sent, first, tid, a2, nonces, k)} :: NonceAt(sent, first, tid, a2, nonces, k)
  }

  lemma NonceMore(sent: seq<seq<Byte>>, first: nat, tid: Byte, a2: seq<Byte>, nonces: seq<seq<Byte>>, pn: seq<Byte>)
    requires |a2| == 6 && IsPn(pn) && NoncesOf(sent, first, tid, a2, nonces)
    ensures NoncesOf(sent + [pn], first, tid, a2, nonces + [Nonce(tid, a2, pn)])
  {
    forall k: nat ensures NonceAt(sent + [pn], first, tid, a2, nonces + [Nonce(tid, a2, pn)], k) {
      assert NonceAt(sent, first, tid, a2, nonces, k);
    }
  }

  ghost predicate Coincide(nonces: seq<seq<Byte>>, j: nat, k: nat) {
    j <= k < |nonces| ==> (nonces[j] == nonces[k] <==> (k - j) % PN_LIMIT == 0)
  }

  /** Any number of frames sent under one key: two of their nonces coincide exactly when a multiple of 2^48
      frames lies between them. */
  method SendAll(key: Key, tid: Byte, a2: seq<Byte>, n: nat) returns (nonces: seq<seq<Byte>>)
    requires key.Valid() && |a2| == 6
    modifies key.txPn, key`sent
    ensures key.Valid() && |nonces| == n && forall j: nat, k: nat :: Coincide(nonces, j, k)
  {
    ghost var first := |key.sent|;
    nonces := [];
    while |nonces| < n
      invariant key.Valid() && |nonces| <= n && NoncesOf(key.sent, first, tid, a2, nonces)
    {
      ghost var before := key.sent;
      var nonce := key.NextNonce(tid, a2);
      NonceMore(before, first, tid, a2, nonces, key.txPn[..]);
      nonces := nonces + [nonce];
    }
    forall j: nat, k: nat | j <= k < n ensures Coincide(nonces, j, k) {
      assert NonceAt(key.sent, first, tid, a2, nonces, j) && NonceAt(key.sent, first, tid, a2, nonces, k);
      NoncesRepeatIff(key, tid, a2, first + j, first + k);
    }
  }

  /** A protected frame as the receiver meets it. */
  datatype Frame = Frame(tid: nat, pn: seq<Byte>, fits: bool, authentic: bool)

  /** Frame k was accepted on TID t with number v. */
  ghost predicate Took(frames: seq<Frame>, oks: seq<bool>, t: nat, v: nat, k: nat) {
    k < |oks| <= |frames| && oks[k] && frames[k].tid == t && IsPn(frames[k].pn) && Value(frames[k].pn) == v
  }

  ghost predicate HeardAt(frames: seq<Frame>, oks: seq<bool>, before: seq<seq<nat>>, accepted: seq<seq<nat>>, t: nat, v: nat) {
    |before| == |accepted| == 8 && (t < 8 ==>
      (v in accepted[t] <==> v in before[t] || exists k: nat :: Took(frames, oks, t, v, k)))
  }

  /** The numbers accepted by now are those accepted before the run and those of the frames accepted in it. */
  ghost predicate Heard(frames: seq<Frame>, oks: seq<bool>, before: seq<seq<nat>>, accepted: seq<seq<nat>>) {
    |before| == |accepted| == 8 && |oks| <= |frames|
    && forall t: nat, v: nat {:trigger HeardAt(frames, oks, before, accepted, t, v)} :: HeardAt(frames, oks, before, accepted, t, v)
  }

  /** Frame i was accepted exactly when it could be: authentic, and beyond all accepted before it on its TID. */
  ghost predicate Decided(frames: seq<Frame>, oks: seq<bool>, before: seq<seq<nat>>, i: nat) {
    i < |oks| <= |frames| && |before| == 8 && IsPn(frames[i].pn) ==>
      var f := frames[i];
      (oks[i] <==> f.tid <= 7 && f.fits && f.authentic && (forall v :: v in before[f.tid] ==> v < Value(f.pn))
                   && forall v: nat, k: nat :: k < i && Took(frames, oks, f.tid, v, k) ==> v < Value(f.pn))
  }

  lemma HeardMore(frames: seq<Frame>, oks: seq<bool>, before: seq<seq<nat>>, accepted: seq<seq<nat>>, ok: bool, accepted': seq<seq<nat>>)
    requires Heard(frames, oks, before, accepted) && |oks| < |frames| && IsPn(frames[|oks|].pn)
    requires var f := frames[|oks|];
      (ok ==> f.tid <= 7) && accepted' == if ok then accepted[f.tid := accepted[f.tid] + [Value(f.pn)]] else accepted
    ensures Heard(frames, oks + [ok], before, accepted')
  {
    forall t: nat, v: nat ensures HeardAt(frames, oks + [ok], before, accepted', t, v) {
      assert HeardAt(frames, oks, before, accepted, t, v);
      forall k: nat ensures Took(frames, oks + [ok], t, v, k)
                       <==> Took(frames, oks, t, v, k) || (k == |oks| && ok && frames[k].tid == t && Value(frames[k].pn) == v) {
      }
    }
  }

  lemma DecidedNow(frames: seq<Frame>, oks: seq<bool>, before: seq<seq<nat>>, accepted: seq<seq<nat>>, ok: bool)
    requires Heard(frames, oks, before, accepted) && |oks| < |frames| && IsPn(frames[|oks|].pn)
    requires var f := frames[|oks|];
      ok <==> f.tid <= 7 && f.fits && f.authentic && forall v :: v in accepted[f.tid] ==> v < Value(f.pn)
    ensures Decided(frames, oks + [ok], before, |oks|)
  {
    var f, i, oks' := frames[|oks|], |oks|, oks + [ok];
    if f.tid <= 7 {
      BeyondIff(frames, oks, before, accepted, f.tid, Value(f.pn));
      forall v: nat, k: nat | k < i ensures Took(frames, oks', f.tid, v, k) <==> Took(frames, oks, f.tid, v, k) {
      }
      assert (forall v: nat, k: nat :: k < i && Took(frames, oks', f.tid, v, k) ==> v < Value(f.pn))
        <==> (forall v: nat, k: nat :: Took(frames, oks, f.tid, v, k) ==> v < Value(f.pn));
    }
  }

  lemma BeyondIff(frames: seq<Frame>, oks: seq<bool>, before: seq<seq<nat>>, accepted: seq<seq<nat>>, t: nat, n: nat)
    requires Heard(frames, oks, before, accepted) && t < 8
    ensures (forall v :: v in accepted[t] ==> v < n)
       <==> (forall v :: v in before[t] ==> v < n) && forall v: nat, k: nat :: Took(frames, oks, t, v, k) ==> v < n
  {
    forall v: nat | v in accepted[t] ensures v in before[t] || exists k: nat :: Took(frames, oks, t, v, k) {
      assert HeardAt(frames, oks, before, accepted, t, v);
    }
    forall v: nat | v in before[t] ensures v in accepted[t] {
      assert HeardAt(frames, oks, before, accepted, t, v);
    }
    forall v: nat, k: nat | Took(frames, oks, t, v, k) ensures v in accepted[t] {
      assert HeardAt(frames, oks, before, accepted, t, v);
    }
  }

  lemma DecidedStays(frames: seq<Frame>, oks: seq<bool>, before: seq<seq<nat>>, ok: bool, i: nat)
    requires i < |oks| < |frames| && Decided(frames, oks, before, i)
    ensures Decided(frames, oks + [ok], before, i)
  {
    forall t: nat, v: nat, k: nat | k < i ensures Took(frames, oks + [ok], t, v, k) <==> Took(frames, oks, t, v, k) {
    }
  }

  /** Any sequence of frames received: which are accepted, exactly, and so none twice. */
  method ReceiveAll(key: Key, frames: seq<Frame>) returns (oks: seq<bool>)
    requires key.Valid() && forall i :: 0 <= i < |frames| ==> IsPn(frames[i].pn)
    modifies key.rxPn, key.rxValid, key`accepted
    ensures key.Valid() && |oks| == |frames| && forall i: nat :: Decided(frames, oks, old(key.accepted), i)
    ensures forall i: nat, j: nat :: Ordered(frames, oks, i, j)
  {
    ghost var before := key.accepted;
    oks := [];
    while |oks| < |frames|
      invariant key.Valid() && Heard(frames, oks, before, key.accepted)
      invariant forall i: nat :: Decided(frames, oks, before, i)
    {
      var f := frames[|oks|];
      ghost var accepted, done := key.accepted, oks;
      var ok := key.Receive(f.tid, f.pn, f.fits, f.authentic);
      DecidedNow(frames, oks, before, accepted, ok);
      HeardMore(frames, oks, before, accepted, ok, key.accepted);
      oks := oks + [ok];
      forall i: nat ensures Decided(frames, oks, before, i) {
        if i < |done| {
          DecidedStays(frames, done, before, ok, i);
        }
      }
    }
    forall i: nat, j: nat ensures Ordered(frames, oks, i, j) {
      OrderedBy(frames, oks, before, i, j);
    }
  }

  /** Of two frames accepted on one TID the later has the greater number. */
  ghost predicate Ordered(frames: seq<Frame>, oks: seq<bool>, i: nat, j: nat) {
    i < j < |oks| <= |frames| && oks[i] && oks[j] && frames[i].tid == frames[j].tid && IsPn(frames[i].pn) && IsPn(frames[j].pn)
    ==> Value(frames[i].pn) < Value(frames[j].pn)
  }

  lemma OrderedBy(frames: seq<Frame>, oks: seq<bool>, before: seq<seq<nat>>, i: nat, j: nat)
    requires |before| == 8 && Decided(frames, oks, before, j)
    ensures Ordered(frames, oks, i, j)
  {
    if i < j < |oks| <= |frames| && IsPn(frames[i].pn) {
      assert oks[i] ==> Took(frames, oks, frames[i].tid, Value(frames[i].pn), i);
    }
  }
}
