/** The scheduler's functions as they run: on one core's row of the static arrays. */
module SchedulerCore {
  import opened Bytes
  import opened Scheduler

  class Core {
    const task_pool: array<Tcb>
    var task_count: nat
    var current_task: nat
    var tick_count: u64

    ghost predicate Valid()
      reads this
    {
      task_pool.Length == MAX_TASKS && task_count <= MAX_TASKS
    }

    ghost function View(): Sched
      requires Valid()
      reads this, task_pool
    {
      Sched(task_pool[..task_count], current_task, tick_count)
    }

    /** The statics at boot: zeroed by boot.S, with no tasks yet. */
    constructor ()
      ensures Valid() && View() == Sched([], 0, 0) && fresh(task_pool) && task_pool.Length == 8
    {
      task_pool := new Tcb[MAX_TASKS](_ => Tcb(0, READY, 0));
      task_count, current_task, tick_count := 0, 0, 0;
    }

    /** sched_add_task; the code does not check that the pool has room. */
    method AddTask(id: nat)
      requires Valid() && task_count < MAX_TASKS
      modifies this, task_pool
      ensures Valid()
      ensures View() == old(View()).(tasks := old(View()).tasks + [Tcb(id, READY, 0)])
    {
      var idx := task_count;
      task_pool[idx] := Tcb(id, READY, 0);
      task_count := task_count + 1;
    }

    /** sched_tick: one more tick, and every sleeper whose time has come is ready. */
    method Tick()
      requires Valid()
      modifies this, task_pool
      ensures Valid() && View() == Scheduler.Tick(old(View()))
    {
      tick_count := (tick_count + 1) % 0x1_0000_0000_0000_0000;
      ghost var before := task_pool[..task_count];
      var i := 0;
      while i < task_count
        invariant 0 <= i <= task_count == old(task_count)
        invariant Valid() && tick_count == (old(tick_count) + 1) % 0x1_0000_0000_0000_0000
        invariant current_task == old(current_task)
        invariant forall j :: 0 <= j < i ==> task_pool[j] == Wake(before[j], tick_count)
        invariant forall j :: i <= j < task_count ==> task_pool[j] == before[j]
      {
        var t := task_pool[i];
        if t.state == SLEEPING && tick_count >= t.wake_tick {
          task_pool[i] := t.(state := READY);
        }
        i := i + 1;
      }
    }

    /** pick_next. */
    method PickNext() returns (next: nat)
      requires Valid()
      ensures next == Scheduler.PickNext(View())
      ensures FirstReady(View().tasks, View().current, next)
    {
      hide PickFrom, FirstReady;
      var count := task_count;
      var cur := current_task;
      PickIsFirstReady(View().tasks, cur, 1);
      var i := 1;
      while i <= count
        invariant 1 <= i <= count + 1
        invariant PickFrom(View().tasks, cur, i) == Scheduler.PickNext(View())
      {
        PickStep(View().tasks, cur, i);
        var candidate := (cur + i) % count;
        if task_pool[candidate].state == READY {
          return candidate;
        }
        i := i + 1;
      }
      PickNone(View().tasks, cur);
      return cur;
    }

    /** task_yield; true when the context is switched. */
    method Yield() returns (switched: bool)
      requires Valid() && current_task < task_count
      modifies this, task_pool
      ensures Valid() && View() == Scheduler.Yield(old(View()))
      ensures switched <==> current_task != old(current_task)
    {
      var old_idx := current_task;
      var new_idx := PickNext();
      PickInRange(View().tasks, current_task, 1);
      if old_idx == new_idx {
        return false;
      }
      task_pool[old_idx] := task_pool[old_idx].(state := READY);
      task_pool[new_idx] := task_pool[new_idx].(state := RUNNING);
      current_task := new_idx;
      return true;
    }

    /** task_sleep_ms. */
    method SleepMs(ms: u32) returns (switched: bool)
      requires Valid() && current_task < task_count
      modifies this, task_pool
      ensures Valid() && View() == Scheduler.Yield(MarkSleep(old(View()), ms))
    {
      ghost var before := View();
      var t := task_pool[current_task];
      task_pool[current_task] :=
        t.(state := SLEEPING, wake_tick := (tick_count + ms) % 0x1_0000_0000_0000_0000);
      assert View() == MarkSleep(before, ms);
      switched := Yield();
    }

    /** sched_run: with no tasks the core waits for ever; otherwise the first starts. */
    method Run() returns (started: bool)
      requires Valid()
      modifies this, task_pool
      ensures Valid() && (started <==> old(task_count) > 0)
      ensures !started ==> View() == old(View())
      ensures started ==> current_task == 0 && View().tasks == SetState(old(View()).tasks, 0, RUNNING)
      ensures started && (forall t :: t in old(View()).tasks ==> t.state == READY) ==> Started(View())
    {
      if task_count == 0 {
        return false;
      }
      current_task := 0;
      task_pool[0] := task_pool[0].(state := RUNNING);
      return true;
    }
  }

  lemma PickStep(tasks: seq<Tcb>, cur: nat, i: nat)
    requires 1 <= i <= |tasks|
    ensures 0 <= (cur + i) % |tasks| < |tasks|
    ensures PickFrom(tasks, cur, i) ==
            if tasks[(cur + i) % |tasks|].state == READY then (cur + i) % |tasks| else PickFrom(tasks, cur, i + 1)
  {
  }

  lemma PickNone(tasks: seq<Tcb>, cur: nat)
    ensures PickFrom(tasks, cur, |tasks| + 1) == cur
  {
  }

  lemma {:induction false} PickInRange(tasks: seq<Tcb>, cur: nat, i: nat)
    requires cur < |tasks| && 1 <= i <= |tasks| + 1
    ensures PickFrom(tasks, cur, i) < |tasks|
    decreases |tasks| + 1 - i
  {
    if i <= |tasks| {
      PickInRange(tasks, cur, i + 1);
    }
  }
}
