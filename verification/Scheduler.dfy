/** include/scheduler/scheduler.c: the cooperative scheduler of one core. */
module Scheduler {
  import opened Bytes

  const MAX_TASKS := 8

  datatype TaskState = READY | RUNNING | SLEEPING | DEAD

  /** The scheduling part of a task control block. */
  datatype Tcb = Tcb(id: nat, state: TaskState, wake_tick: u64)

  /** The scheduler's variables, for the tasks registered so far. */
  datatype Sched = Sched(tasks: seq<Tcb>, current: nat, ticks: u64)

  // ---- The three operations on values ----

  /** Search from the i-th task after the current one, once around. */
  function PickFrom(tasks: seq<Tcb>, cur: nat, i: nat): nat
    requires 1 <= i <= |tasks| + 1
    decreases |tasks| + 1 - i
  {
    if i > |tasks| then cur
    else if tasks[(cur + i) % |tasks|].state == READY then (cur + i) % |tasks|
    else PickFrom(tasks, cur, i + 1)
  }

  function PickNext(s: Sched): nat {
    PickFrom(s.tasks, s.current, 1)
  }

  function SetState(tasks: seq<Tcb>, i: nat, state: TaskState): seq<Tcb>
    requires i < |tasks|
  {
    tasks[i := tasks[i].(state := state)]
  }

  function Yield(s: Sched): (t: Sched)
    requires s.current < |s.tasks|
    ensures t.current < |t.tasks| == |s.tasks|
  {
    var next := PickNext(s);
    if next == s.current || next >= |s.tasks| then s
    else
      s.(tasks := SetState(SetState(s.tasks, s.current, READY), next, RUNNING), current := next)
  }

  /** task_sleep_ms before it yields. */
  function MarkSleep(s: Sched, ms: u32): Sched
    requires s.current < |s.tasks|
  {
    var t := s.tasks[s.current].(state := SLEEPING, wake_tick := (s.ticks + ms) % 0x1_0000_0000_0000_0000);
    s.(tasks := s.tasks[s.current := t])
  }

  function Wake(t: Tcb, ticks: u64): Tcb {
    if t.state == SLEEPING && ticks >= t.wake_tick then t.(state := READY) else t
  }

  function Tick(s: Sched): Sched {
    var ticks := (s.ticks + 1) % 0x1_0000_0000_0000_0000;
    s.(ticks := ticks, tasks := seq(|s.tasks|, i requires 0 <= i < |s.tasks| => Wake(s.tasks[i], ticks)))
  }

  /** What pick_next promises: the first ready task going round from the current
      one, which is itself looked at last; the current one when none is ready. */
  ghost predicate FirstReady(tasks: seq<Tcb>, cur: nat, r: nat) {
    || (exists i :: 1 <= i <= |tasks| && r == Around(tasks, cur, i) && tasks[r].state == READY
          && forall j :: 1 <= j < i ==> tasks[Around(tasks, cur, j)].state != READY)
    || (r == cur && forall t :: t in tasks ==> t.state != READY)
  }

  function Around(tasks: seq<Tcb>, cur: nat, i: nat): (k: nat)
    requires |tasks| > 0
    ensures k < |tasks|
  {
    (cur + i) % |tasks|
  }

  lemma {:induction false} PickIsFirstReady(tasks: seq<Tcb>, cur: nat, i: nat)
    requires 1 <= i <= |tasks| + 1
    requires forall j :: 1 <= j < i ==> tasks[Around(tasks, cur, j)].state != READY
    ensures FirstReady(tasks, cur, PickFrom(tasks, cur, i))
    decreases |tasks| + 1 - i
  {
    if i > |tasks| {
      forall t | t in tasks
        ensures t.state != READY
      {
        var k :| 0 <= k < |tasks| && tasks[k] == t;
        var j := DistanceTo(|tasks|, cur, k);
        assert tasks[Around(tasks, cur, j)].state != READY;
      }
    } else if tasks[Around(tasks, cur, i)].state != READY {
      PickIsFirstReady(tasks, cur, i + 1);
    }
  }

  /** Going once around meets every index. */
  lemma DistanceTo(n: nat, cur: nat, k: nat) returns (j: nat)
    requires k < n
    ensures 1 <= j <= n && (cur + j) % n == k
  {
    var q, r := cur / n, cur % n;
    assert cur == n * q + r;
    if k > r {
      j := k - r;
      DivModUnique(cur + j, n, q, k);
    } else {
      j := k + n - r;
      assert cur + j == n * (q + 1) + k;
      DivModUnique(cur + j, n, q + 1, k);
    }
  }

  lemma ModAdd(a: nat, b: nat, n: nat)
    requires n > 0
    ensures (a + b) % n == (a % n + b) % n
  {
    var q := a / n;
    assert a == q * n + a % n;
    ModMultiple(q, a % n + b, n);
  }

  lemma {:induction false} ModMultiple(q: nat, b: nat, n: nat)
    requires n > 0
    ensures (q * n + b) % n == b % n
  {
    DivModUnique(q * n + b, n, q + b / n, b % n);
  }

  lemma DivModUnique(a: nat, d: nat, q: nat, r: nat)
    requires r < d && a == d * q + r
    ensures a % d == r
  {
    DivUnique(a, d, q, r);
  }

  // ---- Runs ----

  /** task_sleep_ms is a mark and then a yield; ticks may come in between. */
  datatype Act =
    | DoYield
    | DoMark(ms: u32)
    | DoTick

  function Step(s: Sched, a: Act): (t: Sched)
    requires s.current < |s.tasks|
    ensures t.current < |t.tasks| == |s.tasks|
  {
    match a
    case DoYield => Yield(s)
    case DoMark(ms) => MarkSleep(s, ms)
    case DoTick => Tick(s)
  }

  function Exec(s: Sched, acts: seq<Act>): (t: Sched)
    requires s.current < |s.tasks|
    ensures t.current < |t.tasks| == |s.tasks|
  {
    if acts == [] then s else Step(Exec(s, acts[..|acts| - 1]), acts[|acts| - 1])
  }

  function Yields(acts: seq<Act>): nat {
    if acts == [] then 0 else Yields(acts[..|acts| - 1]) + if acts[|acts| - 1].DoYield? then 1 else 0
  }

  function Ticks(acts: seq<Act>): nat {
    if acts == [] then 0 else Ticks(acts[..|acts| - 1]) + if acts[|acts| - 1].DoTick? then 1 else 0
  }

  /** After sched_run: task 0 runs, the others are ready. */
  predicate Started(s: Sched) {
    && 0 < |s.tasks| && s.current == 0
    && s.tasks[0].state == RUNNING
    && forall i :: 0 < i < |s.tasks| ==> s.tasks[i].state == READY
  }

  /** All tasks but the current one are ready, whatever was slept on. */
  predicate OthersReady(s: Sched) {
    && s.current < |s.tasks|
    && (forall i :: 0 <= i < |s.tasks| && i != s.current ==> s.tasks[i].state == READY)
    && s.tasks[s.current].state != DEAD
  }

  lemma NextIsNeighbour(s: Sched)
    requires OthersReady(s)
    ensures PickNext(s) == (s.current + 1) % |s.tasks|
  {
    var n := |s.tasks|;
    if n > 1 {
      NeighbourDiffers(s.current, n);
    } else {
      DivModUnique(s.current + 1, n, 1, 0);
      assert PickFrom(s.tasks, s.current, 2) == s.current;
    }
  }

  lemma NeighbourDiffers(cur: nat, n: nat)
    requires cur < n && n > 1
    ensures (cur + 1) % n != cur && (cur + 1) % n == if cur + 1 == n then 0 else cur + 1
  {
    if cur + 1 == n {
      DivModUnique(cur + 1, n, 1, 0);
    } else {
      DivModUnique(cur + 1, n, 0, cur + 1);
    }
  }

  lemma StepKeepsOthersReady(s: Sched, a: Act)
    requires OthersReady(s)
    ensures OthersReady(Step(s, a))
    ensures Step(s, a).current == if a.DoYield? then (s.current + 1) % |s.tasks| else s.current
  {
    hide PickNext;
    NextIsNeighbour(s);
  }

  /** The whole schedule in closed form. After any sequence of yields, sleeps and
      ticks, every task but the current one is ready, at most the current one is
      running, and the current task is the number of turns given up, modulo the
      number of tasks. */
  lemma {:induction false} RoundRobin(s: Sched, acts: seq<Act>)
    requires Started(s)
    ensures var t := Exec(s, acts);
            && OthersReady(t)
            && (forall i :: 0 <= i < |t.tasks| && t.tasks[i].state == RUNNING ==> i == t.current)
            && t.current == Yields(acts) % |s.tasks|
  {
    hide Step;
    if acts != [] {
      var n := |acts| - 1;
      var before := Exec(s, acts[..n]);
      RoundRobin(s, acts[..n]);
      StepKeepsOthersReady(before, acts[n]);
      ModAdd(Yields(acts[..n]), 1, |s.tasks|);
    }
  }

  /** Among n consecutive numbers exactly one has the residue `k`. */
  lemma OneTurnEach(n: nat, first: nat, k: nat) returns (turn: nat)
    requires k < n
    ensures first <= turn < first + n && turn % n == k
    ensures forall other :: first <= other < first + n && other % n == k ==> other == turn
  {
    var j := DistanceTo(n, first + n - 1, k);
    turn := first - 1 + j;
    assert first + n - 1 + j == turn + n;
    ModMultiple(1, turn, n);
    forall other | first <= other < first + n && other % n == k
      ensures other == turn
    {
      SameResidue(other, turn, n);
    }
  }

  lemma SameResidue(x: nat, y: nat, n: nat)
    requires n > 0 && x % n == y % n && x - n < y < x + n
    ensures x == y
  {
    assert x == n * (x / n) + x % n && y == n * (y / n) + y % n;
    MulBounds(n, x / n - y / n);
  }

  lemma {:induction false} YieldsConcat(a: seq<Act>, b: seq<Act>)
    ensures Yields(a + b) == Yields(a) + Yields(b)
  {
    if b == [] {
      assert a + b == a;
    } else {
      var n := |b| - 1;
      assert (a + b)[..|a| + n] == a + b[..n];
      YieldsConcat(a, b[..n]);
    }
  }

  /** From any moment of any run, exactly one of the next n turns is task `k`'s: over
      every continuation that gives up fewer than n turns, with whatever sleeps and
      ticks, task `k` is current exactly when it has given up `turn` of them. */
  lemma EveryTaskOnce(s: Sched, acts: seq<Act>, k: nat) returns (turn: nat)
    requires Started(s) && k < |s.tasks|
    ensures turn < |s.tasks|
    ensures forall more :: Yields(more) < |s.tasks| ==>
              (Exec(s, acts + more).current == k <==> Yields(more) == turn)
  {
    hide Exec, Yields;
    var n := |s.tasks|;
    var first := Yields(acts);
    var t := OneTurnEach(n, first, k);
    turn := t - first;
    forall more | Yields(more) < n
      ensures Exec(s, acts + more).current == k <==> Yields(more) == turn
    {
      RoundRobin(s, acts + more);
      YieldsConcat(acts, more);
    }
  }

  ghost predicate YieldAfter(acts: seq<Act>, i: nat) {
    exists j :: i < j < |acts| && acts[j].DoYield?
  }

  /** Every task that marked itself asleep has since yielded to another. */
  ghost predicate MarksPassed(n: nat, acts: seq<Act>) {
    forall i :: 0 <= i < |acts| && acts[i].DoMark? ==> n >= 2 && YieldAfter(acts, i)
  }

  lemma MarksMore(n: nat, acts: seq<Act>)
    requires acts != []
    ensures var k := |acts| - 1;
            MarksPassed(n, acts) <==>
              if acts[k].DoMark? then false
              else if acts[k].DoYield? && n >= 2 then true
              else MarksPassed(n, acts[..k])
  {
    var k := |acts| - 1;
    if acts[k].DoMark? {
      assert !YieldAfter(acts, k);
    } else if acts[k].DoYield? && n >= 2 {
      assert forall i :: 0 <= i < |acts| && acts[i].DoMark? ==> i < k && acts[k].DoYield?;
    } else {
      forall i: nat | i < k && n >= 2
        ensures YieldAfter(acts, i) <==> YieldAfter(acts[..k], i)
      {
        assert forall j :: 0 <= j < k ==> acts[..k][j] == acts[j];
      }
      assert forall i :: 0 <= i < k ==> acts[..k][i] == acts[i];
    }
  }

  /** After any run, the current task is the running one exactly when no task has
      marked itself asleep without a yield that handed over since. */
  lemma {:induction false} CurrentRuns(s: Sched, acts: seq<Act>)
    requires Started(s)
    ensures var t := Exec(s, acts);
            t.tasks[t.current].state == RUNNING <==> MarksPassed(|s.tasks|, acts)
  {
    hide MarksPassed;
    if acts == [] {
      assert MarksPassed(|s.tasks|, acts) by { NoMarks(|s.tasks|); }
    } else {
      var n := |acts| - 1;
      CurrentRuns(s, acts[..n]);
      RoundRobin(s, acts[..n]);
      MarksMore(|s.tasks|, acts);
      RunningAfter(Exec(s, acts[..n]), acts[n]);
    }
  }

  lemma NoMarks(n: nat)
    ensures MarksPassed(n, [])
  {
  }

  lemma RunningAfter(s: Sched, a: Act)
    requires OthersReady(s)
    ensures var t := Step(s, a);
            t.tasks[t.current].state == RUNNING <==>
              if a.DoMark? then false
              else if a.DoYield? && |s.tasks| >= 2 then true
              else s.tasks[s.current].state == RUNNING
  {
    hide PickNext;
    NextIsNeighbour(s);
    if |s.tasks| >= 2 {
      NeighbourDiffers(s.current, |s.tasks|);
    } else {
      DivModUnique(s.current + 1, 1, s.current + 1, 0);
    }
  }

  // ---- Sleeping ----

  function TickTimes(s: Sched, n: nat): (t: Sched)
    ensures |t.tasks| == |s.tasks|
  {
    if n == 0 then s else Tick(TickTimes(s, n - 1))
  }

  /** Left alone, a sleeper becomes ready at the first tick that reaches its time. */
  lemma {:induction false} SleeperWakes(s: Sched, i: nat, n: nat)
    requires i < |s.tasks| && s.tasks[i].state == SLEEPING
    requires s.ticks + n < 0x1_0000_0000_0000_0000
    ensures var t := TickTimes(s, n);
            && t.ticks == s.ticks + n
            && t.tasks[i].wake_tick == s.tasks[i].wake_tick
            && t.tasks[i].state == if n > 0 && s.ticks + n >= s.tasks[i].wake_tick then READY else SLEEPING
  {
    if n > 0 {
      SleeperWakes(s, i, n - 1);
    }
  }

  /** Asking to sleep for `ms` ticks makes the caller asleep, until that many ticks
      have come, and at least one. */
  lemma SleepTakes(s: Sched, ms: u32, n: nat)
    requires s.current < |s.tasks|
    requires s.ticks + n < 0x1_0000_0000_0000_0000 && s.ticks + ms < 0x1_0000_0000_0000_0000
    ensures TickTimes(MarkSleep(s, ms), n).tasks[s.current].state == if n > 0 && n >= ms then READY else SLEEPING
  {
    SleeperWakes(MarkSleep(s, ms), s.current, n);
  }

  /** The sleeper runs again: it is current once more, after its own yield. */
  predicate Resumed(s: Sched, ms: u32, acts: seq<Act>)
    requires s.current < |s.tasks|
  {
    Yields(acts) > 0 && Exec(MarkSleep(s, ms), acts).current == s.current
  }

  /** The promise of scheduler.h: a sleeper does not run again before its ticks passed. */
  ghost predicate SleepHonored(s: Sched, ms: u32)
    requires s.current < |s.tasks|
  {
    forall acts :: Resumed(s, ms, acts) ==> Ticks(acts) >= ms
  }

  function OnlyYields(n: nat): (acts: seq<Act>)
    ensures |acts| == n && forall i :: 0 <= i < n ==> acts[i] == DoYield
  {
    seq(n, _ => DoYield)
  }

  lemma {:induction false} OnlyYieldsCount(n: nat)
    ensures Yields(OnlyYields(n)) == n && Ticks(OnlyYields(n)) == 0
  {
    if n > 0 {
      OnlyYieldsCount(n - 1);
      assert OnlyYields(n)[..n - 1] == OnlyYields(n - 1);
    }
  }

  lemma {:induction false} TurnsFrom(s: Sched, acts: seq<Act>)
    requires OthersReady(s)
    ensures OthersReady(Exec(s, acts)) && Exec(s, acts).current == (s.current + Yields(acts)) % |s.tasks|
  {
    hide Step, OthersReady;
    assert s.current < |s.tasks| by { CurrentExists(s); }
    if acts == [] {
      DivModUnique(s.current, |s.tasks|, 0, s.current);
    } else {
      var n := |acts| - 1;
      var turns := s.current + Yields(acts[..n]);
      TurnsFrom(s, acts[..n]);
      StepKeepsOthersReady(Exec(s, acts[..n]), acts[n]);
      if acts[n].DoYield? {
        ModAdd(turns, 1, |s.tasks|);
      }
    }
  }

  lemma CurrentExists(s: Sched)
    requires OthersReady(s)
    ensures s.current < |s.tasks|
  {
  }

  /** What the code does instead: yielding makes the sleeper ready at once, and it
      runs again after exactly n turns, however long it asked to sleep. */
  lemma SleeperReturns(s: Sched, ms: u32, acts: seq<Act>)
    requires OthersReady(s)
    ensures Resumed(s, ms, acts) <==> Yields(acts) > 0 && Yields(acts) % |s.tasks| == 0
  {
    var n := |s.tasks|;
    TurnsFrom(MarkSleep(s, ms), acts);
    ModAdd(Yields(acts), s.current, n);
    ModAdd(0, s.current, n);
    DivModUnique(s.current, n, 0, s.current);
    if (s.current + Yields(acts)) % n == s.current {
      ModCancel(s.current, Yields(acts), n);
    }
  }

  lemma ModCancel(r: nat, y: nat, n: nat)
    requires r < n && (r + y) % n == r
    ensures y % n == 0
  {
    var q := (r + y) / n;
    assert r + y == n * q + r;
    DivModUnique(y, n, q, 0);
  }

  /** The promise holds of a call exactly when it asks for no sleep at all. */
  lemma SleepHonoredIff(s: Sched, ms: u32)
    requires OthersReady(s)
    ensures SleepHonored(s, ms) <==> ms == 0
  {
    var n := |s.tasks|;
    OnlyYieldsCount(n);
    DivModUnique(n, n, 1, 0);
    SleeperReturns(s, ms, OnlyYields(n));
    assert Resumed(s, ms, OnlyYields(n));
  }
}
