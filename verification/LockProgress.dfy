/** Who waits for whom: no core owns two locks, waiting never goes in circles, and
    the only lock that is never given back is the console's, after Ctrl+C. */
module LockProgress {
  import opened HmacSpec
  import opened MailboxSpec
  import opened CriticalSections
  import opened Ipc
  import opened IpcTheorems

  /** Core `c` is in the retry loop for a lock that core `d` set. */
  ghost predicate WaitsFor(s: State, c: nat, d: nat) {
    && Shape(s)
    && c < |s.cores| && d < |s.cores|
    && s.cores[c].phase.Acquiring? && s.cores[c].phase.stage != TestStored(false)
    && s.owner[LockOf(s, s.cores[c].phase.job)] == d
  }

  /** In every reachable state a core owns at most one lock word, and a core that
      another waits for waits for nobody: a chain of waiting has one link. That a core
      never acquires a second lock is how the code is written, and so the shape of
      `Phase`; what is proved is that the owner of a word is a core between acquire
      and release of that word. */
  lemma NoCircularWait(key: seq<bv8>, s: State, moves: seq<Move>)
    requires Initial(s) && Shape(s) && Schedule(s, moves)
    ensures var t := Exec(key, s, moves);
            && (forall k, l :: 0 <= k < |t.owner| && 0 <= l < |t.owner| && t.owner[k] == t.owner[l] != NONE ==> k == l)
            && (forall c: nat, d: nat, e: nat :: WaitsFor(t, c, d) ==> !WaitsFor(t, d, e))
  {
    hide Exec;
    RunKeepsLockInv(key, s, moves);
    var t := Exec(key, s, moves);
    forall k, l | 0 <= k < |t.owner| && 0 <= l < |t.owner| && t.owner[k] == t.owner[l] != NONE
      ensures k == l
    {
      OwnsOne(t, t.owner[k], k, l);
    }
    forall c: nat, d: nat, e: nat | WaitsFor(t, c, d)
      ensures !WaitsFor(t, d, e)
    {
      assert Holds(t, d, LockOf(t, t.cores[c].phase.job));
    }
  }

  // ---- A core alone gives back what it holds ----

  function BytesLeft(bytes: seq<bv8>): nat {
    if |bytes| < 16 then 16 - |bytes| else 0
  }

  function TagLeft(i: nat, tag: seq<bv8>): nat {
    if i < |tag| then |tag| - i else 0
  }

  /** More than the number of accesses before the release. */
  function CritRank(crit: Crit): nat {
    match crit
    case Release(_) => 0
    case SendReady => 1
    case SendTagByte(i, tag) => 2 + TagLeft(i, tag)
    case SendTagRead(bytes) => 35 + BytesLeft(bytes)
    case SendCountStore(_) => 52
    case SendCountLoad => 53
    case SendData => 54
    case SendType => 55
    case SendSender => 56
    case SendCheck => 57
    case RejectDone => 1
    case RejectCheck => 2
    case TakeDone(_, _, _) => 1
    case TakeData(_, _) => 2
    case TakeType(_) => 3
    case TakeSender => 4
    case VerifyByte(i, expected, _) => 5 + TagLeft(i, expected)
    case VerifyRead(bytes) => 38 + BytesLeft(bytes)
    case ReceiveCheck => 60
    case ClearType => 1
    case ClearStatus => 2
  }

  lemma CritAdvances(key: seq<bv8>, op: Op, crit: Crit, b: Box)
    requires !crit.Release?
    ensures CritRank(CritStep(key, op, crit, b).0) < CritRank(crit)
  {
    hide Hmac, MessageByte;
  }

  /** This console job ends in the Ctrl+C halt, which keeps the lock. */
  predicate Halting(phase: Phase) {
    match phase
    case Halted => true
    case Printing(_, halts) => halts
    case Acquiring(ConsoleJob(_, halts), TestStored(false)) => halts
    case _ => false
  }

  function Rank(phase: Phase): nat {
    match phase
    case Acquiring(BoxJob(_, op), TestStored(false)) => CritRank(Entry(op)) + 2
    case Acquiring(ConsoleJob(outputs, _), TestStored(false)) => outputs + 2
    case Inside(_, _, crit) => CritRank(crit) + 1
    case Printing(left, _) => left + 1
    case _ => 0
  }

  /** Core `c` is idle again, and of what happened since only the return of the call
      that was under way is in the log. */
  ghost predicate CallEnds(s: State, c: nat, t: State)
    requires c < |s.cores|
  {
    && c < |t.cores| && t.cores[c].phase.Idle?
    && var calls := UnderWay(s.cores[c].phase);
       if calls == [] then t.log == s.log else Returns(s, c, calls[0].box, calls[0].op, t)
  }

  ghost predicate Returns(s: State, c: nat, b: nat, op: Op, t: State) {
    exists reply :: t.log == s.log + [Event(c, b, op, reply)]
  }

  /** The next step of a holder that is not halting: nearer the release, or it. */
  lemma HolderSteps(key: seq<bv8>, s: State, c: nat, l: nat)
    requires LockInv(s) && c < |s.cores| && l < |s.locks| && Holds(s, c, l) && !Halting(s.cores[c].phase)
    ensures var t := Step(key, s, c, Run);
            if t.locks[l] == 0 then CallEnds(s, c, t)
            else
              && Shape(t) && c < |t.cores| && l < |t.locks|
              && Holds(t, c, l) && !Halting(t.cores[c].phase)
              && Rank(t.cores[c].phase) < Rank(s.cores[c].phase)
              && t.log == s.log && UnderWay(t.cores[c].phase) == UnderWay(s.cores[c].phase)
  {
    hide CritStep, CritRank, LockInv;
    assert Shape(s) by { LockInvCore(s, c); }
    HeldIsOne(s, c, l);
    StepShape(key, s, c, Run);
    match s.cores[c].phase {
      case Inside(b, op, crit) =>
        if !crit.Release? {
          CritAdvances(key, op, crit, s.boxes[b]);
        } else {
          assert Step(key, s, c, Run).log == s.log + [Event(c, b, op, crit.reply)];
        }
      case _ =>
    }
  }

  lemma HeldIsOne(s: State, c: nat, l: nat)
    requires LockInv(s) && c < |s.cores| && l < |s.locks| && Holds(s, c, l)
    ensures s.locks[l] == 1
  {
  }

  function Alone(c: nat, n: nat): (moves: seq<Move>)
    ensures |moves| == n
    ensures forall i :: 0 <= i < n ==> moves[i] == Move(c, Run)
  {
    seq(n, _ => Move(c, Run))
  }

  lemma {:induction false} ExecFirst(key: seq<bv8>, s: State, m: Move, moves: seq<Move>)
    requires Shape(s) && Schedule(s, [m] + moves) && m.core < |s.cores|
    ensures Shape(Step(key, s, m.core, m.act)) && Schedule(Step(key, s, m.core, m.act), moves)
    ensures Exec(key, s, [m] + moves) == Exec(key, Step(key, s, m.core, m.act), moves)
  {
    hide Step;
    assert ([m] + moves)[0] == m;
    StepShape(key, s, m.core, m.act);
    var t := Step(key, s, m.core, m.act);
    forall i | 0 <= i < |moves|
      ensures moves[i].core < |t.cores|
    {
      assert ([m] + moves)[i + 1] == moves[i];
    }
    if moves == [] {
      assert [m] + moves == [m] && [m][..0] == [];
    } else {
      var n := |moves| - 1;
      assert ([m] + moves)[..n + 1] == [m] + moves[..n];
      assert Schedule(s, [m] + moves[..n]);
      ExecFirst(key, s, m, moves[..n]);
    }
  }

  lemma {:induction false} HolderReleases(key: seq<bv8>, s: State, c: nat, l: nat) returns (n: nat)
    requires LockInv(s) && c < |s.cores| && l < |s.locks| && Holds(s, c, l) && !Halting(s.cores[c].phase)
    ensures n > 0 && Exec(key, s, Alone(c, n)).locks[l] == 0 && CallEnds(s, c, Exec(key, s, Alone(c, n)))
    decreases Rank(s.cores[c].phase)
  {
    hide Step, LockInv;
    HolderSteps(key, s, c, l);
    StepKeepsLockInv(key, s, c, Run);
    assert Shape(s) by { LockInvCore(s, c); }
    StepShape(key, s, c, Run);
    var t := Step(key, s, c, Run);
    var k := 0;
    if t.locks[l] != 0 {
      k := HolderReleases(key, t, c, l);
    } else {
      assert Alone(c, 0) == [];
      assert Exec(key, t, Alone(c, 0)) == t;
    }
    n := k + 1;
    assert [Move(c, Run)] + Alone(c, k) == Alone(c, n);
    ExecFirst(key, s, Move(c, Run), Alone(c, k));
  }

  lemma {:induction false} ExecConcat(key: seq<bv8>, s: State, moves: seq<Move>, more: seq<Move>)
    requires Shape(s) && Schedule(s, moves) && Schedule(s, more)
    ensures Schedule(s, moves + more) && Exec(key, s, moves + more) == Exec(key, Exec(key, s, moves), more)
  {
    hide Step;
    if more == [] {
      assert moves + more == moves;
    } else {
      var n := |more| - 1;
      assert (moves + more)[..|moves| + n] == moves + more[..n];
      ExecConcat(key, s, moves, more[..n]);
    }
  }

  /** `Alone` one step further. */
  lemma AloneFirst(key: seq<bv8>, s: State, c: nat, n: nat)
    requires Shape(s) && c < |s.cores|
    ensures Shape(Step(key, s, c, Run)) && c < |Step(key, s, c, Run).cores|
    ensures Exec(key, s, Alone(c, n + 1)) == Exec(key, Step(key, s, c, Run), Alone(c, n))
  {
    hide Step;
    assert Alone(c, n + 1) == [Move(c, Run)] + Alone(c, n);
    ExecFirst(key, s, Move(c, Run), Alone(c, n));
    StepShape(key, s, c, Run);
  }

  lemma AloneNot(key: seq<bv8>, s: State, c: nat)
    requires Shape(s) && c < |s.cores|
    ensures Exec(key, s, Alone(c, 0)) == s
  {
    assert Alone(c, 0) == [];
  }

  /** A core that asks for a free lock loads the word, tests it and stores to it: it
      holds the lock after three steps. */
  lemma AcquiresFree(key: seq<bv8>, s: State, c: nat, job: Job)
    requires Shape(s) && c < |s.cores| && s.cores[c].phase == Acquiring(job, LoadExclusive)
    requires s.locks[LockOf(s, job)] == 0
    ensures var t := Exec(key, s, Alone(c, 3));
            && t.cores[c].phase == Acquiring(job, TestStored(false))
            && t.log == s.log && t.boxes == s.boxes
  {
    hide Step, Disarm;
    var s2 := Step(key, s, c, Run);
    assert s2 == SetCore(s, c, Acquiring(job, TestLoaded(0)), LockOf(s, job)) by { AcquireRuns(key, s, c); }
    AloneFirst(key, s, c, 2);
    var s3 := Step(key, s2, c, Run);
    assert s3 == SetPhase(s2, c, Acquiring(job, StoreExclusive)) by { AcquireRuns(key, s2, c); }
    AloneFirst(key, s2, c, 1);
    AcquireRuns(key, s3, c);
    AloneFirst(key, s3, c, 0);
    AloneNot(key, Step(key, s3, c, Run), c);
  }

  lemma AcquireRuns(key: seq<bv8>, s: State, c: nat)
    requires Shape(s) && c < |s.cores| && s.cores[c].phase.Acquiring?
    ensures Step(key, s, c, Run) == AcquireStep(s, c, s.cores[c].phase.job, s.cores[c].phase.stage)
  {
    hide AcquireStep;
  }

  lemma FreeBox(key: seq<bv8>, s: State, a: seq<Box>, b: nat)
    requires Simulates(key, s, a) && b < |a| && s.locks[b] == 0
    ensures s.boxes[b] == a[b]
  {
    hide InProgress;
    assert BoxSimulates(key, s, b, a[b]);
  }

  /** The schedule in which core `c` alone makes a call, taking `n` steps. */
  function CallMoves(c: nat, job: Job, n: nat): seq<Move> {
    [Move(c, Begin(job))] + Alone(c, n)
  }

  /** The call goes through up to its release. */
  lemma CallRuns(key: seq<bv8>, s: State, moves: seq<Move>, c: nat, job: Job) returns (n: nat)
    requires Initial(s) && Shape(s) && Schedule(s, moves) && c < |s.cores| && job.BoxJob?
    requires var t := Exec(key, s, moves);
             t.cores[c].phase.Idle? && ValidJob(t, c, job) && t.locks[job.box] == 0
    ensures Schedule(s, moves + CallMoves(c, job, n))
    ensures var t, u := Exec(key, s, moves), Exec(key, s, moves + CallMoves(c, job, n));
            u.cores[c].phase.Idle? && u.locks[job.box] == 0 && Returns(t, c, job.box, job.op, u)
  {
    hide Exec, LockInv;
    var t := Exec(key, s, moves);
    var s1 := Step(key, t, c, Begin(job));
    ExecFirst(key, t, Move(c, Begin(job)), Alone(c, 3));
    AcquiresFree(key, s1, c, job);
    var taken := moves + CallMoves(c, job, 3);
    ExecConcat(key, s, moves, CallMoves(c, job, 3));
    RunKeepsLockInv(key, s, taken);
    var k := HolderReleases(key, Exec(key, s, taken), c, job.box);
    n := 3 + k;
    assert taken + Alone(c, k) == moves + CallMoves(c, job, n);
    ExecConcat(key, s, taken, Alone(c, k));
  }

  /** A core that calls while the lock is free and that is not interfered with
      completes the call: it is idle again with the lock given back, and both the
      answer and the mailbox are those of the call made at once. */
  lemma CallCompletes(key: seq<bv8>, s: State, moves: seq<Move>, c: nat, b: nat, op: Op) returns (n: nat)
    requires Initial(s) && Shape(s) && Schedule(s, moves) && c < |s.cores|
    requires var t := Exec(key, s, moves);
             && t.cores[c].phase.Idle? && b < |t.boxes| && (op.Send? ==> op.sender == c % 256)
             && t.locks[b] == 0
    ensures Schedule(s, moves + CallMoves(c, BoxJob(b, op), n))
    ensures var t, u := Exec(key, s, moves), Exec(key, s, moves + CallMoves(c, BoxJob(b, op), n));
            && u.cores[c].phase.Idle? && u.locks[b] == 0
            && u.log == t.log + [Event(c, b, op, Apply(key, t.boxes[b], op).1)]
            && u.boxes[b] == Apply(key, t.boxes[b], op).0
  {
    hide Exec, Apply, Simulates;
    n := CallRuns(key, s, moves, c, BoxJob(b, op));
    var all := moves + CallMoves(c, BoxJob(b, op), n);
    var t, u := Exec(key, s, moves), Exec(key, s, all);
    var reply :| u.log == t.log + [Event(c, b, op, reply)];
    RunRefines(key, s, moves);
    RunRefines(key, s, all);
    FreeBox(key, t, Replay(key, s.boxes, t.log), b);
    FreeBox(key, u, Replay(key, s.boxes, u.log), b);
    assert u.log[..|t.log|] == t.log;
    assert Answers(key, Replay(key, s.boxes, u.log[..|t.log|]), u.log[|t.log|]);
  }

  /** A console job puts out what it was begun with, one output at a step. */
  lemma {:induction false} ConsolePrints(key: seq<bv8>, s: State, c: nat, outputs: nat, halts: bool, k: nat)
    requires Shape(s) && c < |s.cores| && k <= outputs
    requires s.cores[c].phase == Acquiring(ConsoleJob(outputs, halts), TestStored(false))
    ensures Exec(key, s, Alone(c, k + 1)).cores[c].phase == Printing(outputs - k, halts)
  {
    assert Alone(c, k + 1)[..k] == Alone(c, k);
    if k == 0 {
      AloneNot(key, s, c);
    } else {
      ConsolePrints(key, s, c, outputs, halts, k - 1);
    }
  }

  lemma HaltingStays(key: seq<bv8>, s: State, c: nat, d: nat, act: Act)
    requires LockInv(s) && c < |s.cores| && d < |s.cores| && Halting(s.cores[c].phase)
    ensures var t := Step(key, s, d, act);
            |t.cores| == |s.cores| && Halting(t.cores[c].phase) && Console(t) == Console(s)
  {
    hide CritStep, LockInv;
    assert Shape(s) by { LockInvCore(s, c); }
    StepShape(key, s, d, act);
  }

  lemma {:induction false} HaltedForever(key: seq<bv8>, s: State, c: nat, moves: seq<Move>)
    requires LockInv(s) && c < |s.cores| && Halting(s.cores[c].phase) && Schedule(s, moves)
    ensures var t := Exec(key, s, moves);
            LockInv(t) && Halting(t.cores[c].phase) && Console(t) == Console(s) && t.locks[Console(s)] == 1
  {
    hide Step, LockInv;
    assert Shape(s) by { LockInvCore(s, c); }
    if moves != [] {
      var n := |moves| - 1;
      HaltedForever(key, s, c, moves[..n]);
      var u := Exec(key, s, moves[..n]);
      StepKeepsLockInv(key, u, moves[n].core, moves[n].act);
      HaltingStays(key, u, c, moves[n].core, moves[n].act);
    }
    HaltingHolds(Exec(key, s, moves), c);
  }

  lemma HaltingHolds(s: State, c: nat)
    requires LockInv(s) && c < |s.cores| && Halting(s.cores[c].phase)
    ensures s.locks[Console(s)] == 1 && Holds(s, c, Console(s))
  {
    assert Holds(s, c, Console(s));
  }

  ghost predicate Releasable(key: seq<bv8>, s: State, l: nat)
    requires Shape(s) && l < |s.locks|
  {
    exists moves :: Schedule(s, moves) && Released(key, s, moves, l)
  }

  predicate Released(key: seq<bv8>, s: State, moves: seq<Move>, l: nat)
    requires Shape(s) && l < |s.locks| && Schedule(s, moves)
  {
    Exec(key, s, moves).locks[l] == 0
  }

  /** In any reachable state, a held lock can still be released exactly when its
      holder is not in the Ctrl+C halt. Then the holder's own steps suffice. */
  lemma ReleasableIff(key: seq<bv8>, s: State, moves: seq<Move>, c: nat, l: nat)
    requires Initial(s) && Shape(s) && Schedule(s, moves)
    requires c < |s.cores| && l < |s.locks| && Holds(Exec(key, s, moves), c, l)
    ensures var t := Exec(key, s, moves);
            Releasable(key, t, l) <==> !Halting(t.cores[c].phase)
  {
    hide Exec, LockInv;
    RunKeepsLockInv(key, s, moves);
    var t := Exec(key, s, moves);
    if Halting(t.cores[c].phase) {
      forall more | Schedule(t, more)
        ensures !Released(key, t, more, l)
      {
        HaltedForever(key, t, c, more);
      }
    } else {
      var n := HolderReleases(key, t, c, l);
      assert Released(key, t, Alone(c, n), l);
    }
  }
}
