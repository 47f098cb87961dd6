/** The round-robin scheduler, sleeping tasks and kernel mutexes. */
module Scheduling {

  const MAX_TASKS: nat := 24
  const TWO64: nat := 0x1_0000_0000_0000_0000

  /** `waitingOn` is the index of the flag a blocked task waits for, or -1 for its wake tick. */
  datatype Task = Task(used: bool, blocked: bool, wakeTick: nat, waitingOn: int)

  /** What yield may look at: the table, the flags tasks wait on, and the clock. */
  datatype World = World(tasks: seq<Task>, flags: seq<bool>, tick: nat)

  ghost predicate WellFormed(w: World, n: nat) {
    0 < n <= |w.tasks| && forall i :: 0 <= i < n ==> -1 <= w.tasks[i].waitingOn < |w.flags|
  }

  /** A blocked task's condition has come true. */
  predicate Wakes(t: Task, flags: seq<bool>, tick: nat)
    requires -1 <= t.waitingOn < |flags|
  {
    if t.waitingOn >= 0 then flags[t.waitingOn] else tick >= t.wakeTick
  }

  /** Task i can be switched to. */
  ghost predicate Ready(w: World, n: nat, i: nat)
    requires WellFormed(w, n) && i < n
  {
    w.tasks[i].used && (w.tasks[i].blocked ==> Wakes(w.tasks[i], w.flags, w.tick))
  }

  /** Task number d places after c, cyclically. */
  function After(c: nat, d: nat, n: nat): (i: nat)
    requires c < n && d <= n
    ensures i < n
  {
    if c + d < n then c + d else c + d - n
  }

  /** How many places t is after c; n for c itself. */
  function Distance(c: nat, t: nat, n: nat): (d: nat)
    requires c < n && t < n
    ensures 1 <= d <= n && After(c, d, n) == t
  {
    if t > c then t - c else t - c + n
  }

  /** The nearest ready task at distance d or more, as a distance; n + 1 when there is none. */
  ghost function Nearest(w: World, n: nat, c: nat, d: nat): (e: nat)
    requires WellFormed(w, n) && c < n && d <= n + 1
    ensures d <= e <= n + 1
    ensures e <= n ==> Ready(w, n, After(c, e, n))
    ensures forall k :: d <= k < e ==> !Ready(w, n, After(c, k, n))
    decreases n + 1 - d
  {
    if d == n + 1 then d else if Ready(w, n, After(c, d, n)) then d else Nearest(w, n, c, d + 1)
  }

  /** Which one yield leaves running: the nearest other ready task, or the same one. */
  ghost function Next(w: World, n: nat, c: nat): (i: nat)
    requires WellFormed(w, n) && c < n
    ensures i < n
  {
    var e := Nearest(w, n, c, 1);
    if e < n then After(c, e, n) else c
  }

  lemma WrapsAround(x: nat, n: nat)
    requires x < n
    ensures (x + 1) % n == if x + 1 == n then 0 else x + 1
  {
    if x + 1 < n {
      SmallMod(x + 1, n);
    }
  }

  lemma SmallMod(x: nat, n: nat)
    requires x < n
    ensures x % n == x
  {
  }

  // ---------- fairness ----------

  /** A ready task is either chosen or brought closer. */
  lemma CloserOrChosen(w: World, n: nat, c: nat, t: nat)
    requires WellFormed(w, n) && c < n && t < n && t != c && Ready(w, n, t)
    ensures var c' := Next(w, n, c); c' == t || (c' != c && Distance(c', t, n) < Distance(c, t, n))
  {
    var d := Distance(c, t, n);
    var e := Nearest(w, n, c, 1);
    assert e <= d;
  }

  /** Successive choices of yield, each in whatever world the tasks and interrupts have left. */
  ghost predicate Choices(cur: seq<nat>, worlds: seq<World>, n: nat) {
    && |cur| == |worlds| + 1 && cur[0] < n
    && (forall i :: 0 <= i < |worlds| ==> WellFormed(worlds[i], n))
    && (forall i :: 0 <= i < |worlds| ==> cur[i] < n && cur[i + 1] == Next(worlds[i], n, cur[i]))
  }

  lemma {:induction false} ReachedFrom(cur: seq<nat>, worlds: seq<World>, n: nat, t: nat, k: nat) returns (i: nat)
    requires Choices(cur, worlds, n) && t < n && k <= |worlds| && cur[k] < n
    requires forall i :: k <= i < |worlds| ==> Ready(worlds[i], n, t)
    requires cur[k] != t ==> Distance(cur[k], t, n) <= |worlds| - k
    ensures k <= i <= |worlds| && cur[i] == t
    ensures if cur[k] == t then i == k else i - k <= Distance(cur[k], t, n)
    decreases |worlds| - k
  {
    i := k;
    if cur[k] != t {
      CloserOrChosen(worlds[k], n, cur[k], t);
      i := ReachedFrom(cur, worlds, n, t, k + 1);
    }
  }

  /** A task that stays ready runs within n - 1 switches, whatever else happens in between. */
  lemma BoundedWait(cur: seq<nat>, worlds: seq<World>, n: nat, t: nat) returns (i: nat)
    requires Choices(cur, worlds, n) && t < n && |worlds| >= n - 1
    requires forall i :: 0 <= i < |worlds| ==> Ready(worlds[i], n, t)
    ensures i <= n - 1 && i < |cur| && cur[i] == t
  {
    i := ReachedFrom(cur, worlds, n, t, 0);
  }

  // ---------- yield and the waits built on it ----------

  function Awake(t: Task): Task {
    if t.blocked then Task(t.used, false, t.wakeTick, -1) else t
  }

  /** The world yield leaves behind: only the task it stops at may have changed, from blocked to awake. */
  ghost function Yielded(w: World, n: nat, c: nat): (w': World)
    requires WellFormed(w, n) && c < n
    ensures WellFormed(w', n) && |w'.tasks| == |w.tasks| && w'.flags == w.flags && w'.tick == w.tick
  {
    var e := Nearest(w, n, c, 1);
    if e <= n then var i := After(c, e, n); w.(tasks := w.tasks[i := Awake(w.tasks[i])]) else w
  }

  /** The caller marked blocked until a later tick. */
  ghost function Drowsy(w: World, n: nat, c: nat, ticks: nat): (w': World)
    requires WellFormed(w, n) && c < n
    ensures WellFormed(w', n) && |w'.tasks| == |w.tasks| && w'.flags == w.flags && w'.tick == w.tick
  {
    w.(tasks := w.tasks[c := w.tasks[c].(blocked := true, wakeTick := (w.tick + ticks) % TWO64)])
  }

  /** No task but c can run. */
  ghost predicate Alone(w: World, n: nat, c: nat)
    requires WellFormed(w, n)
  {
    forall t: nat :: t < n && t != c ==> !Ready(w, n, t)
  }

  lemma StaysIffAlone(w: World, n: nat, c: nat)
    requires WellFormed(w, n) && c < n
    ensures Next(w, n, c) == c <==> Alone(w, n, c)
  {
    var e := Nearest(w, n, c, 1);
    if e < n {
      assert After(c, e, n) != c;
    } else {
      forall t: nat | t < n && t != c ensures !Ready(w, n, t) {
        assert Distance(c, t, n) < e;
      }
    }
  }

  class Scheduler {
    const tasks: array<Task>
    const flags: array<bool>
    var taskCount: nat
    var current: nat
    var tick: nat

    ghost function Now(): World
      reads this, tasks, flags
    {
      World(tasks[..], flags[..], tick)
    }

    ghost predicate Valid()
      reads this, tasks, flags
    {
      tasks.Length == MAX_TASKS && current < taskCount <= MAX_TASKS && tick < TWO64 && WellFormed(Now(), taskCount)
    }

    /** Task 0 is the caller. */
    constructor (flagCount: nat)
      ensures Valid() && current == 0 && taskCount == 1 && tick == 0 && fresh(tasks) && fresh(flags)
      ensures tasks[0] == Task(true, false, 0, -1)
    {
      tasks := new Task[MAX_TASKS](i => Task(i == 0, false, 0, -1));
      flags := new bool[flagCount];
      taskCount, current, tick := 1, 0, 0;
    }

    /** Scans the others in turn; the one it stops at is awake and runs next. The table changes only there. */
    method Yield()
      requires Valid()
      modifies `current, tasks
      ensures Valid() && current == Next(old(Now()), taskCount, old(current))
      ensures Now() == Yielded(old(Now()), taskCount, old(current))
    {
      var prev := current;
      var next := ScanFrom(prev);
      if next != prev && !tasks[next].blocked && tasks[next].used {
        current := next;
      }
    }

    /** The scan itself: stops at the first task that can run, or comes back round. */
    method ScanFrom(prev: nat) returns (next: nat)
      requires Valid() && prev < taskCount
      modifies tasks
      ensures Valid()
      ensures var e := Nearest(old(Now()), taskCount, prev, 1);
        if e <= taskCount then
          next == After(prev, e, taskCount) && tasks[..] == old(tasks[..])[next := Awake(old(tasks[next]))] && !tasks[next].blocked && tasks[next].used
        else next == prev && tasks[..] == old(tasks[..])
    {
      ghost var w := Now();
      ghost var e := Nearest(w, taskCount, prev, 1);
      next := prev;
      var scanned, found := 0, false;
      while scanned < taskCount && !found
        invariant 0 <= scanned <= taskCount && next == After(prev, scanned, taskCount) && Valid()
        invariant if found then 0 < scanned == e && tasks[..] == w.tasks[next := Awake(w.tasks[next])] && Ready(w, taskCount, next)
                  else e == Nearest(w, taskCount, prev, scanned + 1) && tasks[..] == w.tasks
        decreases taskCount - scanned, !found
      {
        WrapsAround(next, taskCount);
        next := (next + 1) % taskCount;
        scanned := scanned + 1;
        found := TryWake(next, w);
      }
    }

    /** Wakes a candidate whose condition holds; true when it can run. */
    method TryWake(i: nat, ghost w: World) returns (ready: bool)
      requires Valid() && i < taskCount && w == Now()
      modifies tasks
      ensures Valid()
      ensures ready <==> Ready(w, taskCount, i)
      ensures tasks[..] == if ready then w.tasks[i := Awake(w.tasks[i])] else w.tasks
    {
      var t := tasks[i];
      ready := false;
      if t.used {
        if t.blocked && Wakes(t, flags[..], tick) {
          tasks[i] := Task(t.used, false, t.wakeTick, -1);
        }
        ready := !tasks[i].blocked;
      }
    }

    /**
     * sleep_ticks up to the switch: the caller is marked blocked with a wake tick and yields. It goes on
     * running, asleep or not, exactly when no other task can run; otherwise it is left asleep exactly when
     * it was not waiting for a flag and its tick lies ahead.
     */
    method SleepTicks(ticks: nat)
      requires Valid() && ticks < TWO64
      modifies `current, tasks
      ensures Valid() && var w := Drowsy(old(Now()), taskCount, old(current), ticks);
        current == Next(w, taskCount, old(current)) && Now() == Yielded(w, taskCount, old(current))
      ensures current == old(current) <==> Alone(old(Now()), taskCount, old(current))
      ensures current != old(current) ==>
        (Asleep(Now(), taskCount, old(current)) <==> old(tasks[current].waitingOn) == -1 && 0 < ticks && tick + ticks < TWO64)
    {
      ghost var w, c := Now(), current;
      tasks[current] := tasks[current].(blocked := true, wakeTick := (tick + ticks) % TWO64);
      assert Now() == Drowsy(w, taskCount, c, ticks);
      StaysIffAlone(Now(), taskCount, c);
      OthersReady(w, taskCount, c, ticks);
      YieldKeepsOld(Now(), taskCount, c);
      WrapsIff(tick, ticks);
      Yield();
    }
  }

  lemma WrapsIff(tick: nat, ticks: nat)
    requires tick < TWO64 && ticks < TWO64
    ensures tick < (tick + ticks) % TWO64 <==> 0 < ticks && tick + ticks < TWO64
  {
    if tick + ticks >= TWO64 {
      assert (tick + ticks) % TWO64 == tick + ticks - TWO64;
    }
  }

  lemma OthersReady(w: World, n: nat, c: nat, ticks: nat)
    requires WellFormed(w, n) && c < n
    ensures Alone(Drowsy(w, n, c, ticks), n, c) <==> Alone(w, n, c)
  {
    var w' := Drowsy(w, n, c, ticks);
    forall t: nat | t < n && t != c ensures Ready(w', n, t) <==> Ready(w, n, t) {
    }
  }

  /** A task that yields to another keeps its entry. */
  lemma YieldKeepsOld(w: World, n: nat, c: nat)
    requires WellFormed(w, n) && c < n
    ensures Next(w, n, c) != c ==> Yielded(w, n, c).tasks[c] == w.tasks[c]
  {
  }

  /** A sleeper on the clock whose tick has not come. */
  ghost predicate Asleep(w: World, n: nat, t: nat)
    requires WellFormed(w, n) && t < n
  {
    w.tasks[t].blocked && w.tasks[t].waitingOn == -1 && w.tick < w.tasks[t].wakeTick
  }

  /** No sleeper is switched to before its tick, and yield leaves it asleep. */
  lemma SleeperSleeps(w: World, n: nat, c: nat, t: nat)
    requires WellFormed(w, n) && c < n && t < n && Asleep(w, n, t)
    ensures Next(w, n, c) == t ==> c == t
    ensures Yielded(w, n, c).tasks[t] == w.tasks[t]
  {
  }

  /** Who runs, and the world it finds. */
  datatype State = State(current: nat, world: World)

  ghost predicate IsState(s: State, n: nat) {
    WellFormed(s.world, n) && s.current < n
  }

  /** After a yield the task now running, interrupts and the clock do as they like, but for the entry of t. */
  ghost predicate Follows(s: State, s': State, n: nat, t: nat)
    requires IsState(s, n) && IsState(s', n) && t < n
  {
    && s'.current == Next(s.world, n, s.current)
    && s'.world.tasks[t] == Yielded(s.world, n, s.current).tasks[t]
  }

  ghost predicate Runs(states: seq<State>, n: nat, t: nat) {
    && t < n && (forall i :: 0 <= i < |states| ==> IsState(states[i], n))
    && forall i :: 0 <= i < |states| - 1 ==> Follows(states[i], states[i + 1], n, t)
  }

  /** Nobody but itself blocks a runnable task: yield leaves its entry as it is. */
  lemma {:induction false} StaysRunnable(states: seq<State>, n: nat, t: nat, k: nat)
    requires Runs(states, n, t) && k < |states| && states[0].world.tasks[t].used && !states[0].world.tasks[t].blocked
    ensures states[k].world.tasks[t] == states[0].world.tasks[t] && Ready(states[k].world, n, t)
  {
    if k > 0 {
      StaysRunnable(states, n, t, k - 1);
      assert Follows(states[k - 1], states[k], n, t);
    }
  }

  /** A runnable task runs within n - 1 switches of any run in which nobody else touches its entry. */
  lemma RunnableRuns(states: seq<State>, n: nat, t: nat) returns (i: nat)
    requires Runs(states, n, t) && |states| >= n && states[0].world.tasks[t].used && !states[0].world.tasks[t].blocked
    ensures i <= n - 1 && states[i].current == t
  {
    var cur := seq(n, j requires 0 <= j < n => states[j].current);
    var worlds := seq(n - 1, j requires 0 <= j < n - 1 => states[j].world);
    forall j | 0 <= j < n - 1 ensures cur[j + 1] == Next(worlds[j], n, cur[j]) && Ready(worlds[j], n, t) {
      assert Follows(states[j], states[j + 1], n, t);
      StaysRunnable(states, n, t, j);
    }
    i := BoundedWait(cur, worlds, n, t);
  }

  /** What a blocked task waits for has come: its flag is set, or the clock has reached its tick. */
  ghost predicate Due(w: World, e: Task) {
    if e.waitingOn >= 0 then e.waitingOn < |w.flags| && w.flags[e.waitingOn] else w.tick >= e.wakeTick
  }

  lemma {:induction false} StaysReady(states: seq<State>, n: nat, t: nat, k: nat)
    requires Runs(states, n, t) && k < |states| && states[0].world.tasks[t].used
    requires forall i :: 0 <= i < |states| ==> Due(states[i].world, states[0].world.tasks[t])
    ensures var e := states[0].world.tasks[t]; states[k].world.tasks[t] == e || states[k].world.tasks[t] == Awake(e)
    ensures Ready(states[k].world, n, t)
  {
    assert Due(states[k].world, states[0].world.tasks[t]);
    if k > 0 {
      StaysReady(states, n, t, k - 1);
      assert Follows(states[k - 1], states[k], n, t);
    }
  }

  /** Nor does a sleeper wait longer: once its tick or its flag has come it runs within n - 1 switches. */
  lemma DueRuns(states: seq<State>, n: nat, t: nat) returns (i: nat)
    requires Runs(states, n, t) && |states| >= n && states[0].world.tasks[t].used
    requires forall i :: 0 <= i < |states| ==> Due(states[i].world, states[0].world.tasks[t])
    ensures i <= n - 1 && states[i].current == t
  {
    var cur := seq(n, j requires 0 <= j < n => states[j].current);
    var worlds := seq(n - 1, j requires 0 <= j < n - 1 => states[j].world);
    forall j | 0 <= j < n - 1 ensures cur[j + 1] == Next(worlds[j], n, cur[j]) && Ready(worlds[j], n, t) {
      assert Follows(states[j], states[j + 1], n, t);
      StaysReady(states, n, t, j);
    }
    i := BoundedWait(cur, worlds, n, t);
  }

  /** From the switch away from a sleeper on, up to its tick, it does not run and its entry stays as it was. */
  lemma {:induction false} NeverEarly(states: seq<State>, n: nat, t: nat, k: nat)
    requires Runs(states, n, t) && k < |states| && states[0].current != t && Asleep(states[0].world, n, t)
    requires forall i :: 0 <= i < k ==> states[i].world.tick < states[0].world.tasks[t].wakeTick
    ensures states[k].current != t && states[k].world.tasks[t] == states[0].world.tasks[t]
  {
    if k > 0 {
      NeverEarly(states, n, t, k - 1);
      assert Follows(states[k - 1], states[k], n, t);
      SleeperSleeps(states[k - 1].world, n, states[k - 1].current, t);
    }
  }

  /**
   * A whole sleep: after sleep_ticks of a task that waits for no flag, if any other task could run, every
   * continuation of the run leaves the sleeper alone for as long as the clock is short of its tick.
   */
  method Sleep(s: Scheduler, ticks: nat, ghost later: seq<State>, ghost k: nat)
    requires s.Valid() && 0 < ticks && s.tick + ticks < TWO64 && s.tasks[s.current].waitingOn == -1
    requires !Alone(s.Now(), s.taskCount, s.current)
    modifies s`current, s.tasks
    ensures s.Valid() && var run := [State(s.current, s.Now())] + later;
      Runs(run, s.taskCount, old(s.current)) && k < |run| && (forall i :: 0 <= i < k ==> run[i].world.tick < s.tick + ticks)
      ==> run[k].current != old(s.current)
  {
    ghost var t := s.current;
    s.SleepTicks(ticks);
    ghost var run := [State(s.current, s.Now())] + later;
    if Runs(run, s.taskCount, t) && k < |run| && forall i :: 0 <= i < k ==> run[i].world.tick < s.tick + ticks {
      NeverEarly(run, s.taskCount, t, k);
    }
  }

  /** With nobody else to run, sleep_ticks returns at once, however long the sleep was to be. */
  method SleepAlone(ticks: nat) returns (s: Scheduler)
    requires 0 < ticks < TWO64
    ensures s.Valid() && s.current == 0 && s.tick == 0 && Asleep(s.Now(), s.taskCount, 0)
  {
    s := new Scheduler(0);
    s.SleepTicks(ticks);
  }

  // ---------- mutexes ----------

  class Mutex {
    var locked: bool
    var owner: int
    /** Tasks between a lock that returned and their unlock. */
    ghost var holders: set<nat>

    /** At most one task holds the mutex, and it is the recorded owner. */
    ghost predicate Exclusive()
      reads this
    {
      if locked then exists t: nat :: owner == t && holders == {t} else holders == {}
    }

    constructor ()
      ensures Exclusive() && holders == {}
    {
      locked, owner, holders := false, -1, {};
    }

    /** One attempt, with interrupts off: takes the mutex if it is free. */
    method TryLock(task: nat) returns (got: bool)
      requires Exclusive()
      modifies this
      ensures Exclusive() && (got <==> old(holders) == {})
      ensures holders == if got then {task} else old(holders)
    {
      got := !locked;
      if got {
        locked, owner := true, task;
        holders := holders + {task};
      }
    }

    /** Unlocking does not look at the owner: exclusion survives exactly when nobody else holds the mutex. */
    method Unlock(task: nat)
      requires Exclusive()
      modifies this
      ensures !locked && owner == -1 && holders == old(holders) - {task}
      ensures Exclusive() <==> old(holders) <= {task}
    {
      locked, owner := false, -1;
      holders := holders - {task};
    }
  }

  datatype Attempt = Lock(task: nat) | Release(task: nat)

  /** Who holds the mutex after a run: the first to ask while it is free, until it releases. */
  ghost function Holder(steps: seq<Attempt>): (h: int)
    ensures h >= -1
  {
    if steps == [] then -1
    else
      var h := Holder(steps[..|steps| - 1]);
      match steps[|steps| - 1]
      case Lock(task) => if h == -1 then task else h
      case Release(task) => if h == task then -1 else h
  }

  /** Any interleaving of attempts in which only holders unlock: never two holders at once. */
  method RunMutex(m: Mutex, steps: seq<Attempt>)
    requires m.Exclusive() && m.holders == {}
    modifies m
    ensures m.Exclusive() && |m.holders| <= 1
    ensures m.holders == if Holder(steps) >= 0 then {Holder(steps) as nat} else {}
  {
    var i := 0;
    var holder := -1;
    while i < |steps|
      invariant 0 <= i <= |steps| && m.Exclusive() && holder == Holder(steps[..i])
      invariant m.holders == if holder >= 0 then {holder as nat} else {}
    {
      assert steps[..i + 1][..i] == steps[..i];
      match steps[i] {
        case Lock(task) =>
          var got := m.TryLock(task);
          if got {
            holder := task;
          }
        case Release(task) =>
          if task == holder {
            m.Unlock(task);
            holder := -1;
          }
      }
      i := i + 1;
    }
    assert steps[..i] == steps;
  }
}
