/** What a task sees of being switched out and resumed: nothing. */
module TaskContexts {
  import opened Bytes
  import opened ContextSwitch

  /** A task's control block, whose first word is the saved stack pointer, and its
      stack, the bytes from `lo` up to `hi`. */
  datatype Task = Task(tcb: nat, lo: nat, hi: nat)

  predicate InArea(t: Task, i: nat) {
    t.tcb <= i < t.tcb + 8 || t.lo <= i < t.hi
  }

  ghost predicate Apart(t: Task, u: Task) {
    forall i: nat :: !(InArea(t, i) && InArea(u, i))
  }

  ghost predicate Layout(tasks: seq<Task>, size: nat) {
    && size < 0x1_0000_0000_0000_0000
    && (forall t :: 0 <= t < |tasks| ==>
          && tasks[t].tcb + 8 <= size && tasks[t].lo + FRAME <= tasks[t].hi <= size
          && (tasks[t].tcb + 8 <= tasks[t].lo || tasks[t].hi <= tasks[t].tcb))
    && forall t, u :: 0 <= t < |tasks| && 0 <= u < |tasks| && t != u ==> Apart(tasks[t], tasks[u])
  }

  function AlignUp(n: nat, alignment: nat): nat
    requires alignment > 0
  {
    (n + alignment - 1) / alignment * alignment
  }

  const TASK_STACK_SIZE := 2048

  /** In `tcb_t` the stack follows the saved stack pointer and the 16-bit id. */
  const STACK_OFFSET := 8 + 2

  /** After it come the 4-byte state and, at a multiple of 8, three 8-byte fields. */
  const TCB_SIZE := AlignUp(AlignUp(STACK_OFFSET + TASK_STACK_SIZE, 4) + 4, 8) + 3 * 8

  lemma TcbSize()
    ensures TCB_SIZE == 2088 && TCB_SIZE % 8 == 0
  {
  }

  /** `tcb_t task_pool[...]` at address `pool`. */
  function PoolTask(pool: nat, i: nat): Task {
    var tcb := pool + TCB_SIZE * i;
    Task(tcb, tcb + STACK_OFFSET, tcb + STACK_OFFSET + TASK_STACK_SIZE)
  }

  lemma PoolIsLayout(pool: nat, n: nat, size: nat)
    requires pool + TCB_SIZE * n <= size < 0x1_0000_0000_0000_0000
    ensures Layout(seq(n, i requires 0 <= i => PoolTask(pool, i)), size)
  {
    TcbSize();
    var tasks := seq(n, i requires 0 <= i => PoolTask(pool, i));
    forall t, u | 0 <= t < n && 0 <= u < n && t != u
      ensures Apart(tasks[t], tasks[u])
    {
      assert tasks[t] == PoolTask(pool, t) && tasks[u] == PoolTask(pool, u);
    }
  }

  /** The registers and stack pointer a task gets back when it is resumed. */
  datatype Context = Context(regs: seq<u64>, sp: nat)

  /** Task `t` is switched out with this context: its frame is on its own stack and
      its TCB points to it. */
  ghost predicate Parked(tasks: seq<Task>, mem: seq<bv8>, t: nat, ctx: Context) {
    && t < |tasks| && Layout(tasks, |mem|)
    && tasks[t].lo + FRAME <= ctx.sp <= tasks[t].hi
    && FrameHolds(mem, ctx.sp - FRAME, ctx.regs)
    && Load(mem, tasks[t].tcb) == ctx.sp - FRAME
  }

  /** Task `t` leaves the area of every other task alone. */
  ghost predicate KeepsToItself(tasks: seq<Task>, t: nat, mem: seq<bv8>, mem': seq<bv8>) {
    && |mem'| == |mem|
    && forall u :: 0 <= u < |tasks| && u != t ==> AreaSame(tasks[u], mem, mem')
  }

  ghost predicate AreaSame(u: Task, mem: seq<bv8>, mem': seq<bv8>) {
    |mem'| == |mem| && forall i: nat :: i < |mem| && InArea(u, i) ==> mem'[i] == mem[i]
  }

  lemma AreaKeepsParked(tasks: seq<Task>, mem: seq<bv8>, mem': seq<bv8>, t: nat, ctx: Context)
    requires Parked(tasks, mem, t, ctx) && AreaSame(tasks[t], mem, mem')
    ensures Parked(tasks, mem', t, ctx)
  {
    hide Load, FrameHolds;
    FrameStays(mem, mem', ctx.sp - FRAME, ctx.regs);
    LoadSame(mem, mem', tasks[t].tcb);
  }

  /** A switch of task `i`, its stack pointer on its own stack with room for the frame. */
  ghost predicate SwitchStep(tasks: seq<Task>, i: nat, j: nat, c: Cpu, d: Cpu) {
    && i < |tasks| && j < |tasks| && i != j && Layout(tasks, |c.mem|)
    && tasks[i].lo + FRAME <= c.sp <= tasks[i].hi
    && Switched(c, tasks[i].tcb, tasks[j].tcb, d)
  }

  lemma SwitchParks(tasks: seq<Task>, i: nat, j: nat, c: Cpu, d: Cpu)
    requires SwitchStep(tasks, i, j, c, d)
    ensures Parked(tasks, d.mem, i, Context(c.regs, c.sp))
    ensures KeepsToItself(tasks, i, c.mem, d.mem)
  {
    hide Load, FrameHolds;
    forall u | 0 <= u < |tasks| && u != i
      ensures AreaSame(tasks[u], c.mem, d.mem)
    {
      forall k: nat | k < |c.mem| && InArea(tasks[u], k)
        ensures d.mem[k] == c.mem[k]
      {
        assert Apart(tasks[i], tasks[u]);
        assert !InArea(tasks[i], k);
      }
    }
  }

  lemma FramesAgree(mem: seq<bv8>, base: nat, x: seq<u64>, y: seq<u64>)
    requires FrameHolds(mem, base, x) && FrameHolds(mem, base, y)
    ensures x == y
  {
    hide Load;
    assert forall k :: 0 <= k < REGS ==> x[k] == Load(mem, base + FrameOffset(k)) == y[k];
  }

  /** A parked task gets its context back. */
  lemma SwitchRestores(tasks: seq<Task>, i: nat, j: nat, c: Cpu, d: Cpu, ctx: Context)
    requires SwitchStep(tasks, i, j, c, d) && Parked(tasks, c.mem, j, ctx)
    ensures d.regs == ctx.regs && d.sp == ctx.sp
  {
    hide Load, FrameHolds;
    SwitchParks(tasks, i, j, c, d);
    AreaKeepsParked(tasks, c.mem, d.mem, j, ctx);
    FramesAgree(d.mem, ctx.sp - FRAME, d.regs, ctx.regs);
  }

  // ---- Runs ----

  /** The machine with the task it is running. */
  datatype World = World(cpu: Cpu, current: nat)

  /** Either the current task runs, doing anything at all to its registers, its stack
      pointer and memory outside the other tasks' areas, or it switches. */
  ghost predicate Next(tasks: seq<Task>, w: World, v: World) {
    || (v.current == w.current && KeepsToItself(tasks, w.current, w.cpu.mem, v.cpu.mem))
    || SwitchStep(tasks, w.current, v.current, w.cpu, v.cpu)
  }

  ghost predicate Run(tasks: seq<Task>, run: seq<World>) {
    forall k :: 0 <= k < |run| - 1 ==> Next(tasks, run[k], run[k + 1])
  }

  lemma {:induction false} StaysParked(tasks: seq<Task>, run: seq<World>, a: nat, b: nat, t: nat, ctx: Context)
    requires Run(tasks, run) && a <= b < |run|
    requires Parked(tasks, run[a].cpu.mem, t, ctx)
    requires forall k :: a <= k < b ==> run[k].current != t
    ensures Parked(tasks, run[b].cpu.mem, t, ctx)
    decreases b - a
  {
    hide Parked, Switched;
    if a < b {
      StaysParked(tasks, run, a, b - 1, t, ctx);
      assert t < |tasks| by { ParkedExists(tasks, run[b - 1].cpu.mem, t, ctx); }
      assert Next(tasks, run[b - 1], run[b - 1 + 1]);
      if SwitchStep(tasks, run[b - 1].current, run[b].current, run[b - 1].cpu, run[b].cpu) {
        SwitchParks(tasks, run[b - 1].current, run[b].current, run[b - 1].cpu, run[b].cpu);
      }
      AreaKeepsParked(tasks, run[b - 1].cpu.mem, run[b].cpu.mem, t, ctx);
    }
  }

  lemma ParkedExists(tasks: seq<Task>, mem: seq<bv8>, t: nat, ctx: Context)
    requires Parked(tasks, mem, t, ctx)
    ensures t < |tasks|
  {
  }

  /** A task that leaves at step `a` and is next resumed by step `b` finds in x19..x30
      and the stack pointer exactly what it left, whatever ran in between. */
  lemma ResumesUnchanged(tasks: seq<Task>, run: seq<World>, a: nat, b: nat)
    requires Run(tasks, run) && a + 1 <= b < |run| - 1
    requires run[a + 1].current != run[a].current
    requires forall k :: a + 1 <= k <= b ==> run[k].current != run[a].current
    requires run[b + 1].current == run[a].current
    ensures run[b + 1].cpu.regs == run[a].cpu.regs && run[b + 1].cpu.sp == run[a].cpu.sp
  {
    hide Parked, Switched;
    var t := run[a].current;
    var ctx := Context(run[a].cpu.regs, run[a].cpu.sp);
    assert Next(tasks, run[a], run[a + 1]);
    SwitchParks(tasks, t, run[a + 1].current, run[a].cpu, run[a + 1].cpu);
    StaysParked(tasks, run, a + 1, b, t, ctx);
    assert Next(tasks, run[b], run[b + 1]);
    SwitchRestores(tasks, run[b].current, t, run[b].cpu, run[b + 1].cpu, ctx);
  }

  // ---- A new task ----

  /** x19..x29 zero, and the entry in x30, through which the switch returns. */
  function FreshContext(entry: u64, top: nat): Context {
    Context(seq(REGS, k => if k == REGS - 1 then entry else 0), top)
  }

  /** The frame sched_add_task builds at the top of the stack. */
  method BuildFrame(m: Machine, tasks: seq<Task>, t: nat, entry: u64)
    requires t < |tasks| && Layout(tasks, m.mem.Length)
    modifies m.mem
    ensures Parked(tasks, m.mem[..], t, FreshContext(entry, tasks[t].hi))
    ensures KeepsToItself(tasks, t, old(m.mem[..]), m.mem[..])
  {
    hide Load, Store, Layout, LittleEndian;
    ghost var before := m.mem[..];
    LayoutBounds(tasks, m.mem.Length, t);
    var stack_top := tasks[t].hi - FRAME;
    var i := 0;
    while i < 12
      invariant 0 <= i <= 12
      invariant SameOutside(before, m.mem[..], stack_top, tasks[t].hi)
      invariant forall j :: 0 <= j < i ==> Load(m.mem[..], stack_top + 8 * j) == 0
    {
      ghost var was := m.mem[..];
      StoreWord(m.mem, stack_top + 8 * i, 0);
      SlotStored(was, m.mem[..], stack_top, i, 0);
      i := i + 1;
    }
    ghost var zeroed := m.mem[..];
    StoreWord(m.mem, stack_top + 8 * 1, entry);
    SlotStored(zeroed, m.mem[..], stack_top, 1, entry);
    ghost var framed := m.mem[..];
    StoreWord(m.mem, tasks[t].tcb, stack_top);
    StoreElsewhere(framed, tasks[t].tcb, stack_top);
    LoadStored(framed, tasks[t].tcb, stack_top);
    FreshHolds(framed, stack_top, entry);
    FrameStays(framed, m.mem[..], stack_top, FreshContext(entry, tasks[t].hi).regs);
    OwnAreaOnly(tasks, t, before, m.mem[..]);
  }

  lemma LayoutBounds(tasks: seq<Task>, size: nat, t: nat)
    requires Layout(tasks, size) && t < |tasks|
    ensures tasks[t].tcb + 8 <= size && tasks[t].lo + FRAME <= tasks[t].hi <= size
    ensures size < 0x1_0000_0000_0000_0000
    ensures tasks[t].tcb + 8 <= tasks[t].lo || tasks[t].hi <= tasks[t].tcb
  {
  }

  lemma SlotStored(mem: seq<bv8>, mem': seq<bv8>, base: nat, i: nat, v: u64)
    requires i < 12 && base + FRAME <= |mem| && mem' == Store(mem, base + 8 * i, v)
    ensures Load(mem', base + 8 * i) == v
    ensures forall j :: 0 <= j < 12 && j != i ==> Load(mem', base + 8 * j) == Load(mem, base + 8 * j)
    ensures SameOutside(mem, mem', base, base + FRAME)
  {
    hide Load, Store;
    LoadStored(mem, base + 8 * i, v);
    StoreElsewhere(mem, base + 8 * i, v);
    forall j | 0 <= j < 12 && j != i
      ensures Load(mem', base + 8 * j) == Load(mem, base + 8 * j)
    {
      LoadSame(mem, mem', base + 8 * j);
    }
  }

  lemma FreshHolds(mem: seq<bv8>, base: nat, entry: u64)
    requires base + FRAME <= |mem|
    requires forall j :: 0 <= j < 12 ==> Load(mem, base + 8 * j) == if j == 1 then entry else 0
    ensures FrameHolds(mem, base, FreshContext(entry, base + FRAME).regs)
  {
    hide Load;
    forall k | 0 <= k < REGS
      ensures Load(mem, base + FrameOffset(k)) == FreshContext(entry, base + FRAME).regs[k]
    {
      var j := (5 - k / 2) * 2 + k % 2;
      assert FrameOffset(k) == 8 * j && 0 <= j < 12;
      assert Load(mem, base + 8 * j) == if j == 1 then entry else 0;
    }
  }

  lemma OwnAreaOnly(tasks: seq<Task>, t: nat, mem: seq<bv8>, mem': seq<bv8>)
    requires t < |tasks| && Layout(tasks, |mem|) && |mem'| == |mem|
    requires forall i: nat :: i < |mem| && !InArea(tasks[t], i) ==> mem'[i] == mem[i]
    ensures KeepsToItself(tasks, t, mem, mem')
  {
    forall u | 0 <= u < |tasks| && u != t
      ensures AreaSame(tasks[u], mem, mem')
    {
      assert Apart(tasks[t], tasks[u]);
    }
  }

  /** The first switch to a new task lands at its entry with x19..x29 zero and an
      empty stack, however long it waited. */
  lemma FirstSwitch(tasks: seq<Task>, run: seq<World>, b: nat, t: nat, entry: u64)
    requires Run(tasks, run) && b < |run| - 1 && t < |tasks|
    requires Parked(tasks, run[0].cpu.mem, t, FreshContext(entry, tasks[t].hi))
    requires forall k :: 0 <= k <= b ==> run[k].current != t
    requires run[b + 1].current == t
    ensures var cpu := run[b + 1].cpu;
            && cpu.sp == tasks[t].hi
            && |cpu.regs| == REGS && cpu.regs[REGS - 1] == entry
            && forall k :: 0 <= k < REGS - 1 ==> cpu.regs[k] == 0
  {
    hide Parked, Switched;
    var ctx := FreshContext(entry, tasks[t].hi);
    StaysParked(tasks, run, 0, b, t, ctx);
    assert Next(tasks, run[b], run[b + 1]);
    SwitchRestores(tasks, run[b].current, t, run[b].cpu, run[b + 1].cpu, ctx);
  }
}
