/** xHCI cycle-bit rings (section 4.9 of the xHCI specification) as queues between software and hardware. */
module Rings {

  /** A TRB without its cycle bit; the link TRB is told apart by its kind. */
  datatype Trb = Trb(parameter: nat, status: nat, control: nat)

  datatype Entry = Entry(trb: Trb, cycle: bool)

  const RING_SIZE: nat := 32
  const USABLE: nat := 31

  const ZERO_TRB := Trb(0, 0, 0)

  const TRB_LINK: nat := 6

  /** Back to the first slot (the ring's own base), toggling the cycle state. */
  const LINK_TRB := Trb(0, 0, 0x1802)

  predicate IsLink(t: Trb) {
    t.control / 1024 % 64 == TRB_LINK
  }

  /** The cycle bit of the k-th entry ever written to a ring of n slots: set on even laps. */
  function CycleOf(k: nat, n: nat): bool
    requires n > 0
  {
    k / n % 2 == 0
  }

  ghost predicate SlotAt(ring: seq<Entry>, written: seq<Trb>, n: nat, k: nat) {
    0 < n <= |ring| && (k < |written| <= k + n ==> ring[k % n] == Entry(written[k], CycleOf(k, n)))
  }

  /** The ring holds the last n TRBs written, and slots never written still carry a clear cycle bit. */
  ghost predicate Reflects(ring: seq<Entry>, written: seq<Trb>, n: nat) {
    && 0 < n <= |ring|
    && (forall k: nat {:trigger SlotAt(ring, written, n, k)} :: SlotAt(ring, written, n, k))
    && (forall k :: |written| <= k < n ==> !ring[k].cycle)
  }

  lemma NextSlot(k: nat, n: nat)
    requires n == 31 || n == 32
    ensures (k + 1) % n == (if k % n + 1 == n then 0 else k % n + 1)
    ensures CycleOf(k + 1, n) == (if k % n + 1 == n then !CycleOf(k, n) else CycleOf(k, n))
  {
    var q := k / n;
    NextLap(k, n, q, k % n);
    assert (q + 1) % 2 == 0 <==> q % 2 != 0;
  }

  lemma NextLap(k: nat, n: nat, q: nat, r: nat)
    requires (n == 31 || n == 32) && q == k / n && r == k % n
    ensures (k + 1) / n == (if r + 1 == n then q + 1 else q) && (k + 1) % n == (if r + 1 == n then 0 else r + 1)
  {
    if n == 31 {
      assert k == 31 * q + r;
    } else {
      assert k == 32 * q + r;
    }
  }

  lemma OtherSlots(j: nat, k: nat, n: nat)
    requires (n == 31 || n == 32) && j < k < j + n
    ensures j % n != k % n
  {
  }

  /** Writing the next TRB in its slot with its cycle bit. */
  lemma WriteReflects(ring: seq<Entry>, written: seq<Trb>, n: nat, t: Trb)
    requires (n == 31 || n == 32) && Reflects(ring, written, n)
    ensures var k := |written|; Reflects(ring[k % n := Entry(t, CycleOf(k, n))], written + [t], n)
  {
    var k, w := |written|, written + [t];
    var r := ring[k % n := Entry(t, CycleOf(k, n))];
    forall j: nat ensures SlotAt(r, w, n, j) {
      assert SlotAt(ring, written, n, j);
      if j < k < j + n {
        OtherSlots(j, k, n);
      }
    }
  }

  /** What a reader who has taken c of the TRBs written finds in its slot: the next TRB with the
      cycle bit it expects, or a cycle bit that does not match. */
  lemma ReaderSees(ring: seq<Entry>, written: seq<Trb>, n: nat, c: nat)
    requires (n == 31 || n == 32) && Reflects(ring, written, n) && c <= |written| <= c + n
    ensures c < |written| ==> ring[c % n] == Entry(written[c], CycleOf(c, n))
    ensures c == |written| ==> ring[c % n].cycle != CycleOf(c, n)
  {
    if c < |written| {
      assert SlotAt(ring, written, n, c);
    } else if c >= n {
      assert SlotAt(ring, written, n, c - n);
      LapBefore(c, n);
    }
  }

  lemma LapBefore(c: nat, n: nat)
    requires (n == 31 || n == 32) && c >= n
    ensures (c - n) % n == c % n && CycleOf(c - n, n) != CycleOf(c, n)
  {
  }

  // ---------- the event ring: hardware writes, software reads ----------

  class EventRing {
    const ring: array<Entry>
    var dequeue: nat
    var cycle: bool
    /** The controller's own write position and cycle state. */
    var hwEnqueue: nat
    var hwCycle: bool
    ghost var produced: seq<Trb>
    ghost var consumed: nat

    ghost predicate Valid()
      reads this, ring
    {
      && ring.Length == RING_SIZE && Reflects(ring[..], produced, RING_SIZE)
      && consumed <= |produced| <= consumed + RING_SIZE
      && hwEnqueue == |produced| % RING_SIZE && hwCycle == CycleOf(|produced|, RING_SIZE)
      && dequeue == consumed % RING_SIZE && cycle == CycleOf(consumed, RING_SIZE)
    }

    constructor ()
      ensures Valid() && produced == [] && consumed == 0 && fresh(ring)
    {
      ring := new Entry[RING_SIZE](_ => Entry(ZERO_TRB, false));
      dequeue, cycle, hwEnqueue, hwCycle := 0, true, 0, true;
      produced, consumed := [], 0;
    }

    /** The controller posts an event; it does not overrun the reader. */
    method Post(t: Trb)
      requires Valid() && |produced| < consumed + RING_SIZE
      modifies `hwEnqueue, `hwCycle, `produced, ring
      ensures Valid() && produced == old(produced) + [t]
    {
      WriteReflects(ring[..], produced, RING_SIZE, t);
      NextSlot(|produced|, RING_SIZE);
      ring[hwEnqueue] := Entry(t, hwCycle);
      hwEnqueue := hwEnqueue + 1;
      if hwEnqueue == RING_SIZE {
        hwEnqueue, hwCycle := 0, !hwCycle;
      }
      produced := produced + [t];
    }

    /** Takes the next event if there is one: each posted event once, in order. */
    method TryConsumeEvent() returns (ok: bool, out: Trb)
      requires Valid()
      modifies `dequeue, `cycle, `consumed
      ensures Valid() && (ok <==> old(consumed) < |produced|)
      ensures ok ==> out == produced[old(consumed)] && consumed == old(consumed) + 1
      ensures !ok ==> consumed == old(consumed)
    {
      ReaderSees(ring[..], produced, RING_SIZE, consumed);
      NextSlot(consumed, RING_SIZE);
      var entry := ring[dequeue];
      ok, out := entry.cycle == cycle, entry.trb;
      if ok {
        dequeue := dequeue + 1;
        if dequeue == RING_SIZE {
          dequeue, cycle := 0, !cycle;
        }
        consumed := consumed + 1;
      }
    }
  }

  // ---------- command and transfer rings: software writes, hardware reads ----------

  /** Thirty-one TRBs and a link back to the first. */
  class CommandRing {
    const ring: array<Entry>
    var enqueue: nat
    var cycle: bool
    /** The controller's read position, which may rest on the link, and its cycle state. */
    var hwDequeue: nat
    var hwCycle: bool
    ghost var given: seq<Trb>
    ghost var taken: nat

    /** Where the reader stands: on the slot of the next TRB, or on the link it has yet to follow. */
    ghost predicate ReaderAt()
      reads this
    {
      if hwDequeue == USABLE then taken > 0 && taken % USABLE == 0 && hwCycle != CycleOf(taken, USABLE)
      else hwDequeue == taken % USABLE && hwCycle == CycleOf(taken, USABLE)
    }

    /** The link carries the cycle bit of the last lap completed; a clear one before that. */
    ghost predicate LinkOk()
      reads this, ring
    {
      ring.Length == RING_SIZE && ring[USABLE] == Entry(LINK_TRB, |given| >= USABLE && !CycleOf(|given|, USABLE))
    }

    ghost predicate Valid()
      reads this, ring
    {
      && ring.Length == RING_SIZE && Reflects(ring[..], given, USABLE) && LinkOk()
      && (forall k :: 0 <= k < |given| ==> !IsLink(given[k])) && taken <= |given| <= taken + USABLE
      && (hwDequeue == USABLE ==> |given| < taken + USABLE)
      && enqueue == |given| % USABLE && cycle == CycleOf(|given|, USABLE)
      && ReaderAt()
    }

    /** Another TRB fits: a slot is free, and a lap does not end under a reader still resting on the link. */
    ghost predicate Room()
      reads this
    {
      |given| < taken + USABLE && (hwDequeue == USABLE ==> |given| + 1 < taken + USABLE)
    }

    /** TRBs wait, but where the reader stands the cycle bit tells it that none do. */
    ghost predicate Stalled()
      reads this, ring
    {
      taken < |given| && hwDequeue < ring.Length && ring[hwDequeue].cycle != hwCycle
    }

    constructor ()
      ensures Valid() && given == [] && taken == 0 && fresh(ring)
    {
      ring := new Entry[RING_SIZE](i => Entry(if i == USABLE then LINK_TRB else ZERO_TRB, false));
      enqueue, cycle, hwDequeue, hwCycle := 0, true, 0, true;
      given, taken := [], 0;
    }

    /** Writes one TRB and, at the end of a lap, hands the link over with the lap's cycle bit. The code
        does not look at the reader: the ring goes on exactly when there was room, and stalls otherwise. */
    method RingEnqueue(t: Trb) returns (slot: nat)
      requires Valid() && !IsLink(t)
      modifies `enqueue, `cycle, `given, ring
      ensures given == old(given) + [t] && slot == |old(given)| % USABLE
      ensures Valid() <==> old(Room())
      ensures Stalled() <==> !old(Room())
    {
      ghost var room, k := Room(), |given|;
      WriteReflects(ring[..], given, USABLE, t);
      NextSlot(k, USABLE);
      slot := enqueue;
      ring[slot] := Entry(t, cycle);
      enqueue := enqueue + 1;
      if enqueue == USABLE {
        LinkWrite(ring[..], given + [t], cycle);
        ring[USABLE] := Entry(LINK_TRB, cycle);
        enqueue, cycle := 0, !cycle;
      }
      given := given + [t];
      if room {
        NotStalled();
      } else {
        OverrunAt(taken, k, hwDequeue == USABLE);
      }
    }

    /** A valid ring never stalls. */
    lemma NotStalled()
      requires Valid()
      ensures !Stalled()
    {
      if taken < |given| {
        ReaderSees(ring[..], given, USABLE, taken);
        if hwDequeue == USABLE {
          SameLap(taken, |given|);
        }
      }
    }

    /** The controller follows a link that carries its cycle state. */
    method FollowLink()
      requires Valid()
      modifies `hwDequeue, `hwCycle
      ensures Valid() && hwDequeue == taken % USABLE && hwCycle == CycleOf(taken, USABLE)
    {
      if hwDequeue == USABLE {
        SameLap(taken, |given|);
      }
      var entry := ring[hwDequeue];
      ReaderSees(ring[..], given, USABLE, taken);
      if entry.cycle == hwCycle && IsLink(entry.trb) {
        hwDequeue, hwCycle := 0, !hwCycle;
      }
    }

    /** The controller takes the next TRB if there is one: exactly those given, in order, across any number of laps. */
    method Fetch() returns (ok: bool, t: Trb)
      requires Valid()
      modifies `hwDequeue, `hwCycle, `taken
      ensures Valid() && (ok <==> old(taken) < |given|)
      ensures ok ==> t == given[old(taken)] && taken == old(taken) + 1
      ensures !ok ==> taken == old(taken)
      ensures hwDequeue == USABLE <==> ok && taken % USABLE == 0
    {
      FollowLink();
      ReaderSees(ring[..], given, USABLE, taken);
      NextSlot(taken, USABLE);
      var entry := ring[hwDequeue];
      ok, t := entry.cycle == hwCycle, entry.trb;
      if ok {
        hwDequeue := hwDequeue + 1;
        taken := taken + 1;
      }
    }
  }

  lemma SameLap(c: nat, g: nat)
    requires c % USABLE == 0 && c <= g < c + USABLE
    ensures CycleOf(g, USABLE) == CycleOf(c, USABLE)
  {
  }

  /** Where the TRB too many goes: onto the reader's own slot a lap later, or to the end of the lap whose
      link the reader has yet to follow. */
  lemma OverrunAt(c: nat, g: nat, onLink: bool)
    requires if onLink then c % USABLE == 0 && g + 1 == c + USABLE else g == c + USABLE
    ensures if onLink then g % USABLE == USABLE - 1 && CycleOf(g, USABLE) == CycleOf(c, USABLE)
            else g % USABLE == c % USABLE && CycleOf(g, USABLE) != CycleOf(c, USABLE)
  {
    if onLink {
      SameLap(c, g);
    } else {
      LapBefore(g, USABLE);
    }
  }

  /** The link slot is not one of the slots TRBs are read from. */
  lemma LinkWrite(ring: seq<Entry>, written: seq<Trb>, cycle: bool)
    requires |ring| == RING_SIZE && Reflects(ring, written, USABLE)
    ensures Reflects(ring[USABLE := Entry(LINK_TRB, cycle)], written, USABLE)
  {
    var r := ring[USABLE := Entry(LINK_TRB, cycle)];
    forall k: nat ensures SlotAt(r, written, USABLE, k) {
      assert SlotAt(ring, written, USABLE, k);
    }
  }

  // ---------- every interleaving ----------

  datatype Step = Give(t: Trb) | Take

  /** What was sent and what was received. */
  datatype Queue = Queue(sent: seq<Trb>, got: seq<Trb>)

  /** A plain queue for at most `room` waiting entries: a full one refuses, an empty one gives nothing. */
  ghost function Fifo(steps: seq<Step>, room: nat): (q: Queue)
    ensures q.got <= q.sent
  {
    if steps == [] then Queue([], [])
    else
      var q := Fifo(steps[..|steps| - 1], room);
      match steps[|steps| - 1]
      case Give(t) => if |q.sent| < |q.got| + room then Queue(q.sent + [t], q.got) else q
      case Take => if |q.got| < |q.sent| then Queue(q.sent, q.got + [q.sent[|q.got|]]) else q
  }

  lemma FifoStep(steps: seq<Step>, i: nat, room: nat)
    requires i < |steps|
    ensures var q := Fifo(steps[..i], room);
      Fifo(steps[..i + 1], room) == match steps[i]
        case Give(t) => if |q.sent| < |q.got| + room then Queue(q.sent + [t], q.got) else q
        case Take => if |q.got| < |q.sent| then Queue(q.sent, q.got + [q.sent[|q.got|]]) else q
  {
    assert steps[..i + 1][..i] == steps[..i];
  }

  /** Any interleaving of the two sides, the writer holding back when the ring is full: the ring
      behaves as a queue of RING_SIZE entries. */
  method RunEvents(r: EventRing, steps: seq<Step>) returns (got: seq<Trb>)
    requires r.Valid() && r.produced == [] && r.consumed == 0
    modifies r, r.ring
    ensures r.Valid() && Queue(r.produced, got) == Fifo(steps, RING_SIZE) && r.consumed == |got|
  {
    got := [];
    var i, pending := 0, 0;
    while i < |steps|
      invariant 0 <= i <= |steps| && r.Valid() && Queue(r.produced, got) == Fifo(steps[..i], RING_SIZE)
      invariant r.consumed == |got| && pending == |r.produced| - r.consumed
    {
      FifoStep(steps, i, RING_SIZE);
      match steps[i] {
        case Give(t) =>
          if pending < RING_SIZE {
            r.Post(t);
            pending := pending + 1;
          }
        case Take =>
          var ok, t := r.TryConsumeEvent();
          if ok {
            got, pending := got + [t], pending - 1;
          }
      }
      i := i + 1;
    }
    assert steps[..i] == steps;
  }

  /** A queue whose reader may rest on the link at the end of a lap, until its next attempt. */
  datatype LinkQueue = LinkQueue(sent: seq<Trb>, got: seq<Trb>, resting: bool)

  /** Thirty-one entries may wait, one fewer while the reader rests on the link. */
  ghost function LinkStep(q: LinkQueue, s: Step): (r: LinkQueue)
    requires q.got <= q.sent
    ensures r.got <= r.sent
  {
    match s
    case Give(t) =>
      if |q.sent| < |q.got| + USABLE && (q.resting ==> |q.sent| + 1 < |q.got| + USABLE) then q.(sent := q.sent + [t]) else q
    case Take =>
      if |q.got| < |q.sent| then LinkQueue(q.sent, q.got + [q.sent[|q.got|]], (|q.got| + 1) % USABLE == 0)
      else q.(resting := false)
  }

  ghost function LinkFifo(steps: seq<Step>): (q: LinkQueue)
    ensures q.got <= q.sent
  {
    if steps == [] then LinkQueue([], [], false) else LinkStep(LinkFifo(steps[..|steps| - 1]), steps[|steps| - 1])
  }

  lemma LinkFifoStep(steps: seq<Step>, i: nat)
    requires i < |steps|
    ensures LinkFifo(steps[..i + 1]) == LinkStep(LinkFifo(steps[..i]), steps[i])
  {
    assert steps[..i + 1][..i] == steps[..i];
  }

  ghost function QueueOf(r: CommandRing, got: seq<Trb>): LinkQueue
    reads r
  {
    LinkQueue(r.given, got, r.hwDequeue == USABLE)
  }

  /** One attempt of either side; the writer holds back exactly when there is no room. */
  method CommandStep(r: CommandRing, s: Step, got: seq<Trb>, waiting: nat) returns (got': seq<Trb>, waiting': nat)
    requires r.Valid() && (s.Give? ==> !IsLink(s.t)) && got == r.given[..r.taken] && waiting == |r.given| - r.taken
    modifies r, r.ring
    ensures r.Valid() && got' == r.given[..r.taken] && waiting' == |r.given| - r.taken
    ensures QueueOf(r, got') == LinkStep(old(QueueOf(r, got)), s)
  {
    got', waiting' := got, waiting;
    match s
    case Give(t) =>
      ghost var given := r.given;
      if waiting < USABLE && (r.hwDequeue == USABLE ==> waiting + 1 < USABLE) {
        var slot := r.RingEnqueue(t);
        assert r.given[..r.taken] == given[..r.taken];
        waiting' := waiting + 1;
      }
    case Take =>
      var ok, t := r.Fetch();
      if ok {
        got', waiting' := got + [t], waiting - 1;
      }
  }

  /** A command or transfer ring under every interleaving is that queue. */
  method RunCommands(r: CommandRing, steps: seq<Step>) returns (got: seq<Trb>)
    requires r.Valid() && r.given == [] && r.taken == 0 && r.hwDequeue == 0
    requires forall k :: 0 <= k < |steps| && steps[k].Give? ==> !IsLink(steps[k].t)
    modifies r, r.ring
    ensures r.Valid() && got == r.given[..r.taken] && QueueOf(r, got) == LinkFifo(steps)
  {
    got := [];
    var i, waiting := 0, 0;
    while i < |steps|
      invariant 0 <= i <= |steps| && r.Valid() && got == r.given[..r.taken] && waiting == |r.given| - r.taken
      invariant QueueOf(r, got) == LinkFifo(steps[..i])
    {
      LinkFifoStep(steps, i);
      got, waiting := CommandStep(r, steps[i], got, waiting);
      i := i + 1;
    }
    assert steps[..i] == steps;
  }

  // ---------- without room ----------

  /** Writes n TRBs to a ring with room for them all. */
  method GiveMany(r: CommandRing, t: Trb, n: nat)
    requires r.Valid() && !IsLink(t) && |r.given| + n <= r.taken + USABLE && (r.hwDequeue == USABLE ==> |r.given| + n < r.taken + USABLE)
    modifies r`enqueue, r`cycle, r`given, r.ring
    ensures r.Valid() && |r.given| == |old(r.given)| + n
  {
    var i := 0;
    while i < n
      invariant 0 <= i <= n && r.Valid() && |r.given| == |old(r.given)| + i
    {
      var slot := r.RingEnqueue(t);
      i := i + 1;
    }
  }

  /** The controller takes n that wait, and then does not look again. */
  method TakeMany(r: CommandRing, n: nat)
    requires r.Valid() && 0 < n <= |r.given| - r.taken
    modifies r`hwDequeue, r`hwCycle, r`taken
    ensures r.Valid() && r.taken == old(r.taken) + n && (r.hwDequeue == USABLE <==> r.taken % USABLE == 0)
  {
    var i := 0;
    while i < n
      invariant 0 <= i <= n && r.Valid() && r.taken == old(r.taken) + i
      invariant i > 0 ==> (r.hwDequeue == USABLE <==> r.taken % USABLE == 0)
    {
      var ok, t := r.Fetch();
      i := i + 1;
    }
  }

  /** A lap given and taken, and then a whole lap more while the reader rests on the link: never more than 31
      wait, and yet the reader finds nothing. */
  method LapUnderLink(t: Trb) returns (r: CommandRing)
    requires !IsLink(t)
    ensures r.Stalled() && |r.given| == r.taken + USABLE && r.hwDequeue == USABLE
  {
    r := new CommandRing();
    GiveMany(r, t, USABLE);
    TakeMany(r, USABLE);
    GiveMany(r, t, USABLE - 1);
    var slot := r.RingEnqueue(t);
  }
}
