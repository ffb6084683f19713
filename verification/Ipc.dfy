/** include/ipc/ipc.c on any number of cores, one load or store at a time.

    A machine has mailboxes 0..M-1, each guarded by the lock of the same number,
    and lock M for the console. A schedule names, step by step, which core moves.
    Steps are sequentially consistent. */
module Ipc {
  import opened MailboxSpec
  import opened CriticalSections

  /** What a core wants a lock for: one mailbox call, or some console output that
      ends by releasing the lock or, after Ctrl+C, by halting with it. */
  datatype Job =
    | BoxJob(box: nat, op: Op)
    | ConsoleJob(outputs: nat, halts: bool)

  /** The instructions of `spinlock_acquire`. */
  datatype Stage =
    | LoadExclusive
    | TestLoaded(value: nat)
    | StoreExclusive
    | TestStored(failed: bool)

  datatype Phase =
    | Idle
    | Acquiring(job: Job, stage: Stage)
    | Inside(box: nat, op: Op, crit: Crit)
    | Printing(left: nat, halts: bool)
    | Halted

  const NONE := -1

  /** `armed` is the lock the core's exclusive monitor watches, or NONE. */
  datatype Core = Core(phase: Phase, armed: int)

  /** A mailbox call that has returned. */
  datatype Event = Event(core: nat, box: nat, op: Op, reply: Reply)

  /** `owner` and `log` are history: the core that set each lock word, and the
      calls that have returned. No step looks at them. */
  datatype State = State(locks: seq<nat>, boxes: seq<Box>, cores: seq<Core>, owner: seq<int>, log: seq<Event>)

  datatype Act =
    | Begin(job: Job)
    | Run
    | StoreFails     // STXR may fail for no visible reason
    | MonitorLost    // and a monitor may be lost at any time

  function Console(s: State): nat {
    |s.boxes|
  }

  function LockOf(s: State, job: Job): nat {
    match job
    case BoxJob(box, _) => box
    case ConsoleJob(_, _) => Console(s)
  }

  /** The sender field is the low byte of the calling core's MPIDR. */
  predicate ValidJob(s: State, c: nat, job: Job) {
    job.BoxJob? ==> job.box < |s.boxes| && (job.op.Send? ==> job.op.sender == c % 256)
  }

  predicate ValidPhase(s: State, c: nat, phase: Phase) {
    match phase
    case Acquiring(job, _) => ValidJob(s, c, job)
    case Inside(box, op, _) => ValidJob(s, c, BoxJob(box, op))
    case _ => true
  }

  predicate Shape(s: State) {
    && |s.locks| == |s.owner| == |s.boxes| + 1
    && forall c :: 0 <= c < |s.cores| ==> ValidPhase(s, c, s.cores[c].phase)
  }

  function SetPhase(s: State, c: nat, phase: Phase): State
    requires c < |s.cores|
  {
    s.(cores := s.cores[c := s.cores[c].(phase := phase)])
  }

  function SetCore(s: State, c: nat, phase: Phase, armed: int): State
    requires c < |s.cores|
  {
    s.(cores := s.cores[c := Core(phase, armed)])
  }

  /** A store to lock `l` opens every monitor that watches it. */
  function Disarm(cores: seq<Core>, l: nat): (r: seq<Core>)
    ensures |r| == |cores|
    ensures forall i :: 0 <= i < |r| ==> r[i].phase == cores[i].phase
    ensures forall i :: 0 <= i < |r| ==> r[i].armed == if cores[i].armed == l then NONE else cores[i].armed
  {
    seq(|cores|, i requires 0 <= i < |cores| =>
      if cores[i].armed == l then cores[i].(armed := NONE) else cores[i])
  }

  function StoreLock(s: State, l: nat, value: nat, owner: int): State
    requires l < |s.locks| && l < |s.owner|
  {
    s.(locks := s.locks[l := value], owner := s.owner[l := owner], cores := Disarm(s.cores, l))
  }

  function Enter(job: Job): Phase {
    match job
    case BoxJob(box, op) => Inside(box, op, Entry(op))
    case ConsoleJob(outputs, halts) => Printing(outputs, halts)
  }

  function AcquireStep(s: State, c: nat, job: Job, stage: Stage): State
    requires Shape(s) && c < |s.cores| && ValidJob(s, c, job)
  {
    var l := LockOf(s, job);
    match stage
    case LoadExclusive => SetCore(s, c, Acquiring(job, TestLoaded(s.locks[l])), l)
    case TestLoaded(v) => SetPhase(s, c, Acquiring(job, if v != 0 then LoadExclusive else StoreExclusive))
    case StoreExclusive =>
      if s.cores[c].armed == l then SetPhase(StoreLock(s, l, 1, c), c, Acquiring(job, TestStored(false)))
      else SetCore(s, c, Acquiring(job, TestStored(true)), NONE)
    case TestStored(failed) => SetPhase(s, c, if failed then Acquiring(job, LoadExclusive) else Enter(job))
  }

  function InsideStep(key: seq<bv8>, s: State, c: nat, b: nat, op: Op, crit: Crit): State
    requires Shape(s) && c < |s.cores| && b < |s.boxes|
  {
    match crit
    case Release(reply) =>
      var t := SetPhase(StoreLock(s, b, 0, NONE), c, Idle);
      t.(log := s.log + [Event(c, b, op, reply)])
    case _ =>
      var (crit', box') := CritStep(key, op, crit, s.boxes[b]);
      SetPhase(s, c, Inside(b, op, crit')).(boxes := s.boxes[b := box'])
  }

  function PrintStep(s: State, c: nat, left: nat, halts: bool): State
    requires Shape(s) && c < |s.cores|
  {
    if left > 0 then SetPhase(s, c, Printing(left - 1, halts))
    else if halts then SetPhase(s, c, Halted)
    else SetPhase(StoreLock(s, Console(s), 0, NONE), c, Idle)
  }

  function Step(key: seq<bv8>, s: State, c: nat, act: Act): State
    requires Shape(s) && c < |s.cores|
  {
    var phase := s.cores[c].phase;
    match act
    case Begin(job) =>
      if phase.Idle? && ValidJob(s, c, job) then SetPhase(s, c, Acquiring(job, LoadExclusive)) else s
    case MonitorLost => SetCore(s, c, phase, NONE)
    case StoreFails =>
      if phase.Acquiring? && phase.stage.StoreExclusive? then
        SetCore(s, c, Acquiring(phase.job, TestStored(true)), NONE)
      else s
    case Run =>
      match phase
      case Acquiring(job, stage) => AcquireStep(s, c, job, stage)
      case Inside(b, op, crit) => InsideStep(key, s, c, b, op, crit)
      case Printing(left, halts) => PrintStep(s, c, left, halts)
      case Idle => s
      case Halted => s
  }

  lemma StepShape(key: seq<bv8>, s: State, c: nat, act: Act)
    requires Shape(s) && c < |s.cores|
    ensures var t := Step(key, s, c, act);
            Shape(t) && |t.boxes| == |s.boxes| && |t.cores| == |s.cores|
  {
    hide CritStep;
  }

  // ---- Mutual exclusion ----

  /** Core `c` is between acquiring and releasing lock `l`. */
  predicate Holds(s: State, c: nat, l: int)
    requires c < |s.cores|
  {
    match s.cores[c].phase
    case Idle => false
    case Acquiring(job, stage) => stage == TestStored(false) && l == LockOf(s, job)
    case Inside(box, _, _) => l == box
    case Printing(_, _) => l == Console(s)
    case Halted => l == Console(s)
  }

  /** A live monitor vouches for the value its core loaded. */
  predicate MonitorSound(s: State, c: nat)
    requires Shape(s) && c < |s.cores|
  {
    match s.cores[c].phase
    case Acquiring(job, TestLoaded(v)) =>
      s.cores[c].armed == LockOf(s, job) ==> v == s.locks[LockOf(s, job)]
    case Acquiring(job, StoreExclusive) =>
      s.cores[c].armed == LockOf(s, job) ==> s.locks[LockOf(s, job)] == 0
    case _ => true
  }

  ghost predicate LockInv(s: State) {
    && Shape(s)
    && (forall c :: 0 <= c < |s.cores| ==> MonitorSound(s, c))
    && (forall l :: 0 <= l < |s.locks| ==> s.locks[l] == if s.owner[l] == NONE then 0 else 1)
    && (forall c, l :: 0 <= c < |s.cores| && 0 <= l < |s.locks| ==> (Holds(s, c, l) <==> s.owner[l] == c))
    && (forall l :: 0 <= l < |s.locks| ==> NONE <= s.owner[l] < |s.cores|)
  }

  /** A step that leaves the lock words alone and changes only core `c`. */
  lemma LocalStep(s: State, t: State, c: nat)
    requires LockInv(s) && Shape(t) && c < |s.cores|
    requires t.locks == s.locks && t.owner == s.owner && |t.boxes| == |s.boxes| && |t.cores| == |s.cores|
    requires forall d :: 0 <= d < |s.cores| && d != c ==> t.cores[d] == s.cores[d]
    requires forall l :: 0 <= l < |s.locks| ==> (Holds(t, c, l) <==> Holds(s, c, l))
    requires MonitorSound(t, c)
    ensures LockInv(t)
  {
    forall d, l | 0 <= d < |t.cores| && 0 <= l < |t.locks|
      ensures Holds(t, d, l) <==> t.owner[l] == d
    {
      assert Holds(t, d, l) <==> Holds(s, d, l);
    }
    forall d | 0 <= d < |t.cores|
      ensures MonitorSound(t, d)
    {
      assert MonitorSound(s, d);
    }
  }

  /** A step that stores to lock `l` on behalf of core `c`. */
  lemma StoreStep(s: State, c: nat, l: nat, value: nat, owner: int, phase: Phase)
    requires LockInv(s) && c < |s.cores| && l < |s.locks|
    requires s.owner[l] == NONE || s.owner[l] == c
    requires (owner == NONE && value == 0) || (owner == c && value == 1)
    requires ValidPhase(s, c, phase) && (phase.Acquiring? ==> phase.stage.TestStored?)
    requires var t := SetPhase(StoreLock(s, l, value, owner), c, phase);
             && (Holds(t, c, l) <==> owner == c)
             && (forall k :: 0 <= k < |s.locks| && k != l ==> (Holds(t, c, k) <==> Holds(s, c, k)))
    ensures LockInv(SetPhase(StoreLock(s, l, value, owner), c, phase))
  {
    var t := SetPhase(StoreLock(s, l, value, owner), c, phase);
    forall d, k | 0 <= d < |t.cores| && 0 <= k < |t.locks|
      ensures Holds(t, d, k) <==> t.owner[k] == d
    {
      assert Holds(s, d, k) <==> s.owner[k] == d;
      assert d != c ==> (Holds(t, d, k) <==> Holds(s, d, k));
    }
    forall d | 0 <= d < |t.cores|
      ensures MonitorSound(t, d)
    {
      assert MonitorSound(s, d);
    }
  }

  lemma AcquireKeepsLockInv(s: State, c: nat, job: Job, stage: Stage)
    requires LockInv(s) && c < |s.cores| && s.cores[c].phase == Acquiring(job, stage)
    ensures LockInv(AcquireStep(s, c, job, stage))
  {
    var t := AcquireStep(s, c, job, stage);
    var l := LockOf(s, job);
    assert MonitorSound(s, c);
    if stage.StoreExclusive? && s.cores[c].armed == l {
      StoreStep(s, c, l, 1, c, Acquiring(job, TestStored(false)));
    } else {
      LocalStep(s, t, c);
    }
  }

  lemma InsideKeepsLockInv(key: seq<bv8>, s: State, c: nat, b: nat, op: Op, crit: Crit)
    requires LockInv(s) && c < |s.cores| && s.cores[c].phase == Inside(b, op, crit)
    ensures LockInv(InsideStep(key, s, c, b, op, crit))
  {
    hide CritStep;
    assert Holds(s, c, b);
    if crit.Release? {
      StoreStep(s, c, b, 0, NONE, Idle);
      LocalStep(SetPhase(StoreLock(s, b, 0, NONE), c, Idle), InsideStep(key, s, c, b, op, crit), c);
    } else {
      LocalStep(s, InsideStep(key, s, c, b, op, crit), c);
    }
  }

  lemma PrintKeepsLockInv(s: State, c: nat, left: nat, halts: bool)
    requires LockInv(s) && c < |s.cores| && s.cores[c].phase == Printing(left, halts)
    ensures LockInv(PrintStep(s, c, left, halts))
  {
    assert Holds(s, c, Console(s));
    if left == 0 && !halts {
      StoreStep(s, c, Console(s), 0, NONE, Idle);
    } else {
      LocalStep(s, PrintStep(s, c, left, halts), c);
    }
  }

  lemma StepKeepsLockInv(key: seq<bv8>, s: State, c: nat, act: Act)
    requires LockInv(s) && c < |s.cores|
    ensures LockInv(Step(key, s, c, act))
  {
    hide AcquireStep, InsideStep, PrintStep, LockInv;
    assert Shape(s) && MonitorSound(s, c) by { LockInvCore(s, c); }
    match act
    case Run =>
      match s.cores[c].phase {
        case Acquiring(job, stage) => AcquireKeepsLockInv(s, c, job, stage);
        case Inside(b, op, crit) => InsideKeepsLockInv(key, s, c, b, op, crit);
        case Printing(left, halts) => PrintKeepsLockInv(s, c, left, halts);
        case Idle =>
        case Halted =>
      }
    case _ => LocalStep(s, Step(key, s, c, act), c);
  }

  lemma LockInvCore(s: State, c: nat)
    requires LockInv(s) && c < |s.cores|
    ensures Shape(s) && MonitorSound(s, c)
  {
  }

  // ---- Refinement of atomic calls ----

  /** Box `b` against its atomic counterpart: equal, unless a core is at work on it. */
  ghost predicate BoxSimulates(key: seq<bv8>, s: State, b: nat, a: Box)
    requires Shape(s) && b < |s.boxes|
  {
    var c := s.owner[b];
    if 0 <= c < |s.cores| && s.cores[c].phase.Inside? then
      InProgress(key, s.cores[c].phase.op, a, s.cores[c].phase.crit, s.boxes[b])
    else s.boxes[b] == a
  }

  /** The state and the atomic mailboxes `a`, at every moment of a run. */
  ghost predicate Simulates(key: seq<bv8>, s: State, a: seq<Box>) {
    && LockInv(s)
    && |a| == |s.boxes|
    && forall b :: 0 <= b < |a| ==> |a[b].tag| == 32 && BoxSimulates(key, s, b, a[b])
  }

  /** The atomic mailboxes after one more logged call. */
  function ApplyEvent(key: seq<bv8>, a: seq<Box>, e: Event): seq<Box> {
    if e.box < |a| then a[e.box := Apply(key, a[e.box], e.op).0] else a
  }

  /** The call was given back what the atomic mailbox gives back. */
  predicate Answers(key: seq<bv8>, a: seq<Box>, e: Event) {
    e.box < |a| && e.reply == Apply(key, a[e.box], e.op).1
  }

  lemma OtherBoxes(key: seq<bv8>, s: State, t: State, c: nat, a: seq<Box>, a': seq<Box>, l: nat)
    requires Simulates(key, s, a) && LockInv(t) && c < |s.cores|
    requires |t.cores| == |s.cores| && |t.boxes| == |s.boxes| == |a'|
    requires forall d :: 0 <= d < |s.cores| && d != c ==> t.cores[d].phase == s.cores[d].phase
    requires forall b :: 0 <= b < |a| && b != l ==> t.boxes[b] == s.boxes[b] && a'[b] == a[b]
    requires forall b :: 0 <= b < |a| && b != l ==> t.owner[b] == s.owner[b] && t.owner[b] != c
    requires l < |a| ==> |a'[l].tag| == 32 && BoxSimulates(key, t, l, a'[l])
    ensures Simulates(key, t, a')
  {
    hide InProgress;
    forall b | 0 <= b < |a'|
      ensures |a'[b].tag| == 32 && BoxSimulates(key, t, b, a'[b])
    {
      assert BoxSimulates(key, s, b, a[b]);
    }
  }

  lemma OwnsOne(s: State, c: nat, k: nat, l: nat)
    requires LockInv(s) && c < |s.cores| && k < |s.locks| && l < |s.locks|
    requires s.owner[k] == c && s.owner[l] == c
    ensures k == l
  {
    assert Holds(s, c, k) && Holds(s, c, l);
  }

  lemma AcquireSimulates(key: seq<bv8>, s: State, c: nat, job: Job, stage: Stage, a: seq<Box>)
    requires Simulates(key, s, a) && c < |s.cores| && s.cores[c].phase == Acquiring(job, stage)
    ensures Simulates(key, AcquireStep(s, c, job, stage), a)
  {
    hide Apply, SendProgress, ReceiveProgress, ClearProgress;
    var t := AcquireStep(s, c, job, stage);
    var l := LockOf(s, job);
    AcquireKeepsLockInv(s, c, job, stage);
    forall b | 0 <= b < |a| && b != l
      ensures t.owner[b] == s.owner[b] && t.owner[b] != c
    {
      assert !Holds(s, c, b);
    }
    if l < |a| {
      assert BoxSimulates(key, s, l, a[l]);
      assert Holds(s, c, l) <==> s.owner[l] == c;
      assert MonitorSound(s, c);
      EntryInProgress(key, job.op, a[l]);
      assert BoxSimulates(key, t, l, a[l]);
    }
    OtherBoxes(key, s, t, c, a, a, l);
  }

  lemma EntryInProgress(key: seq<bv8>, op: Op, a: Box)
    requires |a.tag| == 32
    ensures InProgress(key, op, a, Entry(op), a)
  {
  }

  lemma Progresses(key: seq<bv8>, op: Op, a: Box, crit: Crit, b: Box)
    requires InProgress(key, op, a, crit, b)
    ensures InProgress(key, op, a, CritStep(key, op, crit, b).0, CritStep(key, op, crit, b).1)
  {
    hide CritStep, SendProgress, ReceiveProgress, ClearProgress;
    match op
    case Send(_, _, _) => SendProgresses(key, op, a, crit, b);
    case Receive => ReceiveProgresses(key, op, a, crit, b);
    case Clear => ClearProgresses(key, op, a, crit, b);
  }

  lemma ReleaseMeansDone(key: seq<bv8>, op: Op, a: Box, reply: Reply, b: Box)
    requires InProgress(key, op, a, Release(reply), b)
    ensures (b, reply) == Apply(key, a, op)
  {
    hide Apply;
  }

  lemma ApplyTagLength(key: seq<bv8>, a: Box, op: Op)
    requires |a.tag| == 32
    ensures |Apply(key, a, op).0.tag| == 32
  {
  }

  /** A step inside a critical section shows nothing, and the release shows the
      whole call at once. */
  lemma InsideSimulates(key: seq<bv8>, s: State, c: nat, b: nat, op: Op, crit: Crit, a: seq<Box>)
    requires Simulates(key, s, a) && c < |s.cores| && s.cores[c].phase == Inside(b, op, crit)
    ensures var t := InsideStep(key, s, c, b, op, crit);
            if crit.Release? then
              Answers(key, a, Event(c, b, op, crit.reply)) &&
              Simulates(key, t, ApplyEvent(key, a, Event(c, b, op, crit.reply)))
            else Simulates(key, t, a)
  {
    hide CritStep, Apply, InProgress;
    var t := InsideStep(key, s, c, b, op, crit);
    InsideKeepsLockInv(key, s, c, b, op, crit);
    assert Holds(s, c, b);
    assert BoxSimulates(key, s, b, a[b]);
    forall k | 0 <= k < |a| && k != b
      ensures t.owner[k] == s.owner[k] && t.owner[k] != c
    {
      assert !Holds(s, c, k);
    }
    if crit.Release? {
      ReleaseMeansDone(key, op, a[b], crit.reply, s.boxes[b]);
      ApplyTagLength(key, a[b], op);
      OtherBoxes(key, s, t, c, a, ApplyEvent(key, a, Event(c, b, op, crit.reply)), b);
    } else {
      Progresses(key, op, a[b], crit, s.boxes[b]);
      OtherBoxes(key, s, t, c, a, a, b);
    }
  }

  lemma PrintSimulates(key: seq<bv8>, s: State, c: nat, left: nat, halts: bool, a: seq<Box>)
    requires Simulates(key, s, a) && c < |s.cores| && s.cores[c].phase == Printing(left, halts)
    ensures Simulates(key, PrintStep(s, c, left, halts), a)
  {
    hide InProgress;
    var t := PrintStep(s, c, left, halts);
    PrintKeepsLockInv(s, c, left, halts);
    forall b | 0 <= b < |a|
      ensures t.owner[b] == s.owner[b] && t.owner[b] != c
    {
      assert !Holds(s, c, b);
    }
    OtherBoxes(key, s, t, c, a, a, Console(s));
  }

  /** What one step adds to the log. */
  function Emitted(s: State, c: nat, act: Act): seq<Event>
    requires c < |s.cores|
  {
    match (act, s.cores[c].phase)
    case (Run, Inside(b, op, Release(reply))) => [Event(c, b, op, reply)]
    case _ => []
  }

  /** Every step either shows nothing or is one atomic call with that call's answer. */
  lemma StepRefines(key: seq<bv8>, s: State, c: nat, act: Act, a: seq<Box>)
    requires Simulates(key, s, a) && c < |s.cores|
    ensures var t, es := Step(key, s, c, act), Emitted(s, c, act);
            && t.log == s.log + es
            && (es == [] ==> Simulates(key, t, a))
            && (es != [] ==> Answers(key, a, es[0]) && Simulates(key, t, ApplyEvent(key, a, es[0])))
  {
    hide AcquireStep, InsideStep, PrintStep, Apply, InProgress;
    StepLog(key, s, c, act);
    StepKeepsLockInv(key, s, c, act);
    match act
    case Run =>
      match s.cores[c].phase {
        case Acquiring(job, stage) => AcquireSimulates(key, s, c, job, stage, a);
        case Inside(b, op, crit) => InsideSimulates(key, s, c, b, op, crit, a);
        case Printing(left, halts) => PrintSimulates(key, s, c, left, halts, a);
        case Idle =>
        case Halted =>
      }
    case _ => QuietSimulates(key, s, c, act, a);
  }

  lemma StepLog(key: seq<bv8>, s: State, c: nat, act: Act)
    requires Shape(s) && c < |s.cores|
    ensures Step(key, s, c, act).log == s.log + Emitted(s, c, act)
  {
    hide CritStep;
  }

  lemma QuietSimulates(key: seq<bv8>, s: State, c: nat, act: Act, a: seq<Box>)
    requires Simulates(key, s, a) && c < |s.cores| && act != Run
    ensures Simulates(key, Step(key, s, c, act), a)
  {
    hide InProgress;
    StepKeepsLockInv(key, s, c, act);
    var t := Step(key, s, c, act);
    forall b | 0 <= b < |a|
      ensures BoxSimulates(key, t, b, a[b])
    {
      assert BoxSimulates(key, s, b, a[b]);
      assert s.owner[b] == c ==> Holds(s, c, b);
    }
  }

  // ---- Runs ----

  datatype Move = Move(core: nat, act: Act)

  /** The boot state of main.c: every lock free, every core outside. */
  ghost predicate Initial(s: State) {
    && |s.locks| == |s.owner| == |s.boxes| + 1
    && (forall l :: 0 <= l < |s.locks| ==> s.locks[l] == 0 && s.owner[l] == NONE)
    && (forall c :: 0 <= c < |s.cores| ==> s.cores[c].phase.Idle?)
    && (forall b :: 0 <= b < |s.boxes| ==> |s.boxes[b].tag| == 32)
    && s.log == []
  }

  /** The moves name cores of the machine. */
  predicate Schedule(s: State, moves: seq<Move>) {
    forall i :: 0 <= i < |moves| ==> moves[i].core < |s.cores|
  }

  /** The state after any sequence of moves, in any interleaving. */
  function Exec(key: seq<bv8>, s: State, moves: seq<Move>): (t: State)
    requires Shape(s) && Schedule(s, moves)
    ensures Shape(t) && |t.boxes| == |s.boxes| && |t.cores| == |s.cores|
  {
    if moves == [] then s
    else
      var before := Exec(key, s, moves[..|moves| - 1]);
      var m := moves[|moves| - 1];
      StepShape(key, before, m.core, m.act);
      Step(key, before, m.core, m.act)
  }

  /** The atomic mailboxes after the logged calls. */
  function Replay(key: seq<bv8>, a: seq<Box>, log: seq<Event>): (r: seq<Box>)
    ensures |r| == |a|
  {
    if log == [] then a else ApplyEvent(key, Replay(key, a, log[..|log| - 1]), log[|log| - 1])
  }

  /** Every logged call was answered as the atomic mailbox would have. */
  ghost predicate AllAnswer(key: seq<bv8>, a: seq<Box>, log: seq<Event>) {
    forall i :: 0 <= i < |log| ==> Answers(key, Replay(key, a, log[..i]), log[i])
  }

  lemma InitialShape(s: State)
    requires Initial(s)
    ensures Shape(s) && LockInv(s)
  {
  }

  /** Mutual exclusion, in every reachable state, for any number of cores: a lock
      word is 1 exactly when some core is between acquire and release, and then
      exactly one is. */
  lemma MutualExclusion(key: seq<bv8>, s: State, moves: seq<Move>)
    requires Initial(s) && Shape(s) && Schedule(s, moves)
    ensures var t := Exec(key, s, moves);
            forall l :: 0 <= l < |t.locks| ==>
              && (t.locks[l] == 0 || t.locks[l] == 1)
              && (t.locks[l] == 1 <==> exists c :: 0 <= c < |t.cores| && Holds(t, c, l))
              && forall c, d :: 0 <= c < |t.cores| && 0 <= d < |t.cores| && Holds(t, c, l) && Holds(t, d, l) ==> c == d
  {
    RunKeepsLockInv(key, s, moves);
    var t := Exec(key, s, moves);
    forall l | 0 <= l < |t.locks|
      ensures t.locks[l] == 1 <==> exists c :: 0 <= c < |t.cores| && Holds(t, c, l)
    {
      if t.locks[l] == 1 {
        assert Holds(t, t.owner[l], l);
      }
    }
  }

  lemma {:induction false} RunKeepsLockInv(key: seq<bv8>, s: State, moves: seq<Move>)
    requires Initial(s) && Shape(s) && Schedule(s, moves)
    ensures LockInv(Exec(key, s, moves))
  {
    hide Step, LockInv;
    if moves == [] {
      InitialShape(s);
    } else {
      var n := |moves| - 1;
      RunKeepsLockInv(key, s, moves[..n]);
      StepKeepsLockInv(key, Exec(key, s, moves[..n]), moves[n].core, moves[n].act);
    }
  }

  /** Every interleaving of loads and stores refines atomic calls, each taking effect
      when its lock is released: all replies are those of the atomic mailboxes, and
      whenever a lock is free its mailbox is the atomic one. */
  lemma {:induction false} RunRefines(key: seq<bv8>, s: State, moves: seq<Move>)
    requires Initial(s) && Shape(s) && Schedule(s, moves)
    ensures var t := Exec(key, s, moves);
            AllAnswer(key, s.boxes, t.log) && Simulates(key, t, Replay(key, s.boxes, t.log))
  {
    hide Step, Simulates, Answers, ApplyEvent;
    if moves == [] {
      InitialSimulates(key, s);
    } else {
      var n := |moves| - 1;
      var u := Exec(key, s, moves[..n]);
      var c, act := moves[n].core, moves[n].act;
      RunRefines(key, s, moves[..n]);
      var a := Replay(key, s.boxes, u.log);
      StepRefines(key, u, c, act, a);
      var t, es := Step(key, u, c, act), Emitted(u, c, act);
      assert t == Exec(key, s, moves);
      if es == [] {
        assert t.log == u.log;
      } else {
        AnswerMore(key, s.boxes, u.log, es[0]);
        assert t.log == u.log + [es[0]];
      }
    }
  }

  lemma InitialSimulates(key: seq<bv8>, s: State)
    requires Initial(s)
    ensures Shape(s) && Simulates(key, s, s.boxes)
  {
    InitialShape(s);
  }

  lemma AnswerMore(key: seq<bv8>, a: seq<Box>, log: seq<Event>, e: Event)
    requires AllAnswer(key, a, log) && Answers(key, Replay(key, a, log), e)
    ensures AllAnswer(key, a, log + [e])
    ensures Replay(key, a, log + [e]) == ApplyEvent(key, Replay(key, a, log), e)
  {
    hide Answers, ApplyEvent;
    var more := log + [e];
    assert more[..|log|] == log;
    forall i | 0 <= i < |more|
      ensures Answers(key, Replay(key, a, more[..i]), more[i])
    {
      if i < |log| {
        assert more[..i] == log[..i];
      }
    }
  }
}
