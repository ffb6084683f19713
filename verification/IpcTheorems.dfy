/** The mailbox laws, stated of the fine-grained machine. */
module IpcTheorems {
  import opened HmacSpec
  import opened MailboxSpec
  import opened MailboxHistory
  import opened CriticalSections
  import opened Ipc

  // ---- Messages ----

  /** Event `j` is the send whose message waits in mailbox `b` after `log`: since
      then the mailbox has only refused sends. */
  ghost predicate Waiting(log: seq<Event>, b: nat, j: nat, m: Message) {
    && j < |log| && log[j].box == b && log[j].reply == Sent
    && log[j].op == Send(m.sender_id, m.msg_type, m.msg_data)
    && forall k :: j < k < |log| && log[k].box == b ==> log[k].reply == Full
  }

  /** A call that leaves a mailbox ready either was an accepted send or was refused. */
  lemma StillReady(key: seq<bv8>, b: Box, op: Op)
    requires Apply(key, b, op).0.status == READY
    ensures Apply(key, b, op).1 == Sent ==>
              op.Send? && Apply(key, b, op).0.msg == NextMessage(b, op)
    ensures Apply(key, b, op).1 != Sent ==> Apply(key, b, op) == (b, Full)
  {
    hide Tag;
  }

  lemma {:induction false} WaitingSend(key: seq<bv8>, a: seq<Box>, log: seq<Event>, b: nat) returns (j: nat)
    requires AllAnswer(key, a, log) && b < |a| && a[b].status != READY
    requires Replay(key, a, log)[b].status == READY
    ensures Waiting(log, b, j, Replay(key, a, log)[b].msg)
  {
    hide Apply, AllAnswer;
    if log == [] {
      assert false;
    } else {
      var n := |log| - 1;
      var e := log[n];
      var before := Replay(key, a, log[..n]);
      LastAnswer(key, a, log);
      AnswerPrefix(key, a, log, n);
      if e.box == b {
        StillReady(key, before[b], e.op);
      }
      if e.box == b && e.reply == Sent {
        j := n;
      } else {
        assert before[b] == Replay(key, a, log)[b];
        j := WaitingSend(key, a, log[..n], b);
        assert forall k :: j < k < n ==> log[..n][k] == log[k];
      }
    }
  }

  lemma LastAnswer(key: seq<bv8>, a: seq<Box>, log: seq<Event>)
    requires AllAnswer(key, a, log) && log != []
    ensures Answers(key, Replay(key, a, log[..|log| - 1]), log[|log| - 1])
  {
  }

  lemma AnswerPrefix(key: seq<bv8>, a: seq<Box>, log: seq<Event>, n: nat)
    requires AllAnswer(key, a, log) && n <= |log|
    ensures AllAnswer(key, a, log[..n])
  {
    hide Answers;
    forall i | 0 <= i < n
      ensures Answers(key, Replay(key, a, log[..n][..i]), log[..n][i])
    {
      assert log[..n][..i] == log[..i];
    }
  }

  /** Booted by `mailbox_init`: no message anywhere. */
  ghost predicate Booted(s: State) {
    Initial(s) && forall b :: 0 <= b < |s.boxes| ==> s.boxes[b].status == EMPTY && s.boxes[b].msg.counter == 0
  }

  /** In any interleaving, a receive that succeeds hands out exactly the fields of
      one completed send, the last one accepted by that mailbox, and no other call
      has taken that message. */
  lemma NoTornMessage(key: seq<bv8>, s: State, moves: seq<Move>, i: nat) returns (j: nat)
    requires Booted(s) && Shape(s) && Schedule(s, moves)
    requires i < |Exec(key, s, moves).log| && Exec(key, s, moves).log[i].reply.Received?
    ensures var log := Exec(key, s, moves).log;
            && j < i && log[j].box == log[i].box && log[j].reply == Sent && log[j].op.Send?
            && log[i].reply == Received(log[j].op.sender, log[j].op.msg_type, log[j].op.msg_data)
            && forall k :: j < k < i && log[k].box == log[i].box ==> log[k].reply == Full
  {
    hide Exec, Tag, Replay, Simulates;
    RunRefines(key, s, moves);
    var log := Exec(key, s, moves).log;
    var b := log[i].box;
    assert Answers(key, Replay(key, s.boxes, log[..i]), log[i]);
    AnswerPrefix(key, s.boxes, log, i);
    assert Replay(key, s.boxes, log[..i])[b].status == READY;
    j := WaitingSend(key, s.boxes, log[..i], b);
    assert forall k :: 0 <= k < i ==> log[..i][k] == log[k];
  }

  // ---- Conservation and order ----

  /** The calls on mailbox `b`, in the order in which they took effect. */
  function Deeds(log: seq<Event>, b: nat): seq<Deed> {
    if log == [] then []
    else
      var e := log[|log| - 1];
      Deeds(log[..|log| - 1], b) + if e.box == b then [Do(e.op)] else []
  }

  datatype Kind = AcceptedSends | Receipts | Rejections

  predicate Is(kind: Kind, r: Reply) {
    match kind
    case AcceptedSends => r.Sent?
    case Receipts => r.Received?
    case Rejections => r.Rejected?
  }

  /** How many calls on mailbox `b` returned a reply of one kind. */
  function Count(log: seq<Event>, b: nat, kind: Kind): nat {
    if log == [] then 0
    else
      var e := log[|log| - 1];
      Count(log[..|log| - 1], b, kind) + if e.box == b && Is(kind, e.reply) then 1 else 0
  }

  /** The history of a mailbox tells what its callers saw. */
  ghost predicate Tells(h: History, box: Box, log: seq<Event>, b: nat) {
    && h.box == box
    && |h.sent| == Count(log, b, AcceptedSends)
    && |h.took| == Count(log, b, Receipts)
    && h.rejected == Count(log, b, Rejections)
  }

  lemma ExtendTells(key: seq<bv8>, h: History, log: seq<Event>, b: nat)
    requires log != [] && Tells(h, h.box, log[..|log| - 1], b)
    requires log[|log| - 1].box == b && log[|log| - 1].reply == Apply(key, h.box, log[|log| - 1].op).1
    ensures var op := log[|log| - 1].op;
            Tells(Extend(key, h, Do(op)), Apply(key, h.box, op).0, log, b)
  {
    hide Tag;
  }

  lemma {:induction false} HistoryTells(key: seq<bv8>, a: seq<Box>, log: seq<Event>, b: nat)
    requires AllAnswer(key, a, log) && b < |a|
    ensures Tells(Play(key, a[b], Deeds(log, b)), Replay(key, a, log)[b], log, b)
  {
    hide Apply, AllAnswer, Extend;
    if log != [] {
      var n := |log| - 1;
      var h := Play(key, a[b], Deeds(log[..n], b));
      LastAnswer(key, a, log);
      AnswerPrefix(key, a, log, n);
      HistoryTells(key, a, log[..n], b);
      if log[n].box == b {
        PlayMore(key, a[b], Deeds(log[..n], b), Do(log[n].op));
        ExtendTells(key, h, log, b);
      } else {
        assert Deeds(log, b) == Deeds(log[..n], b);
      }
    }
  }

  lemma {:induction false} DeedsUndisturbed(log: seq<Event>, b: nat)
    ensures Undisturbed(Deeds(log, b))
  {
    if log != [] {
      DeedsUndisturbed(log[..|log| - 1], b);
    }
  }

  /** Over any interleaving, per mailbox: the sends that returned 0 are the receives
      that returned 1, plus messages wiped by a clear, plus one if a message waits.
      No receive ever rejected one. When the lock is free the mailbox in memory is
      the one the calls produce, and a ready one carries the tag of its fields. */
  lemma MessagesConserved(key: seq<bv8>, s: State, moves: seq<Move>, b: nat)
    requires Booted(s) && Shape(s) && Schedule(s, moves) && b < |s.boxes|
    ensures var t := Exec(key, s, moves);
            var h := Play(key, s.boxes[b], Deeds(t.log, b));
            && Count(t.log, b, AcceptedSends)
                 == Count(t.log, b, Receipts) + h.wiped + Pending(h.box)
            && Count(t.log, b, Rejections) == 0
            && Orderly(key, s.boxes[b], h)
            && (t.locks[b] == 0 ==> t.boxes[b] == h.box)
            && (t.locks[b] == 0 && t.boxes[b].status == READY ==> t.boxes[b].tag == Tag(key, t.boxes[b].msg))
  {
    hide Tag, Exec, Play, Replay, Count;
    RunRefines(key, s, moves);
    var t := Exec(key, s, moves);
    HistoryTells(key, s.boxes, t.log, b);
    DeedsUndisturbed(t.log, b);
    Conservation(key, s.boxes[b], Deeds(t.log, b));
    CallsAreOrderly(key, s.boxes[b], Deeds(t.log, b));
    assert BoxSimulates(key, t, b, Replay(key, s.boxes, t.log)[b]);
  }

  /** In any interleaving every send that returned 0 has been received, or waits,
      exactly when no clear took effect after a send with only sends in between. */
  lemma NothingLostIffInRuns(key: seq<bv8>, s: State, moves: seq<Move>, b: nat)
    requires Booted(s) && Shape(s) && Schedule(s, moves) && b < |s.boxes|
    ensures var t := Exec(key, s, moves);
            var waiting := Pending(Replay(key, s.boxes, t.log)[b]);
            (Count(t.log, b, AcceptedSends) == Count(t.log, b, Receipts) + waiting) <==>
            !SendMeetsClear(Deeds(t.log, b))
  {
    hide Exec, Play, Replay, Count, SendMeetsClear;
    RunRefines(key, s, moves);
    MessagesConserved(key, s, moves, b);
    var log := Exec(key, s, moves).log;
    HistoryTells(key, s.boxes, log, b);
    NothingLostIff(key, s.boxes[b], Deeds(log, b));
  }

  // ---- The calls are those that were asked for ----

  /** The mailbox call that a core has begun and that has not returned. */
  function UnderWay(phase: Phase): (calls: seq<Job>)
    ensures |calls| <= 1 && forall job :: job in calls ==> job.BoxJob?
  {
    match phase
    case Acquiring(job, _) => if job.BoxJob? then [job] else []
    case Inside(box, op, _) => [BoxJob(box, op)]
    case _ => []
  }

  /** The mailbox call that a move begins for core `c`: any call on a mailbox of the
      machine, a send with the core's own number. */
  function Asks(s: State, c: nat, m: Move): seq<Job>
    requires c < |s.cores|
  {
    if m.core == c && m.act.Begin? && s.cores[c].phase.Idle? then
      match m.act.job
      case BoxJob(box, op) =>
        if box < |s.boxes| && (op.Send? ==> op.sender == c % 256) then [BoxJob(box, op)] else []
      case ConsoleJob(_, _) => []
    else []
  }

  function Asked(key: seq<bv8>, s: State, moves: seq<Move>, c: nat): seq<Job>
    requires Shape(s) && Schedule(s, moves) && c < |s.cores|
  {
    if moves == [] then []
    else
      var n := |moves| - 1;
      Asked(key, s, moves[..n], c) + Asks(Exec(key, s, moves[..n]), c, moves[n])
  }

  /** The calls of core `c` that have returned. */
  function Returned(log: seq<Event>, c: nat): seq<Job> {
    if log == [] then []
    else
      var e := log[|log| - 1];
      Returned(log[..|log| - 1], c) + if e.core == c then [BoxJob(e.box, e.op)] else []
  }

  lemma ReturnedMore(log: seq<Event>, es: seq<Event>, c: nat)
    requires |es| <= 1
    ensures Returned(log + es, c) == Returned(log, c) + Returned(es, c)
  {
    if es == [] {
      assert log + es == log;
    } else {
      assert (log + es)[..|log|] == log && es[..0] == [];
    }
  }

  lemma OthersKeepPhase(key: seq<bv8>, s: State, d: nat, act: Act, c: nat)
    requires Shape(s) && d < |s.cores| && c < |s.cores| && c != d
    ensures c < |Step(key, s, d, act).cores| && Step(key, s, d, act).cores[c].phase == s.cores[c].phase
  {
    hide CritStep;
  }

  /** A core's own step: what was under way, or is asked for now, has returned or is
      under way. */
  lemma StepKeepsCall(key: seq<bv8>, s: State, c: nat, act: Act)
    requires Shape(s) && c < |s.cores|
    ensures var t, es := Step(key, s, c, act), Emitted(s, c, act);
            && c < |t.cores|
            && UnderWay(s.cores[c].phase) + Asks(s, c, Move(c, act)) == Returned(es, c) + UnderWay(t.cores[c].phase)
  {
    hide CritStep;
    ReturnedOne(s, c, act);
  }

  /** A step emits at most the return of the call that its core is inside. */
  lemma ReturnedOne(s: State, d: nat, act: Act)
    requires d < |s.cores|
    ensures |Emitted(s, d, act)| <= 1
    ensures forall c :: c != d ==> Returned(Emitted(s, d, act), c) == []
    ensures Returned(Emitted(s, d, act), d) == if Emitted(s, d, act) == [] then [] else UnderWay(s.cores[d].phase)
  {
    var es := Emitted(s, d, act);
    assert es != [] ==> es[..0] == [];
  }

  lemma MoveKeepsCalls(key: seq<bv8>, s: State, m: Move, c: nat)
    requires Shape(s) && m.core < |s.cores| && c < |s.cores|
    ensures var t := Step(key, s, m.core, m.act);
            && c < |t.cores|
            && Returned(t.log, c) + UnderWay(t.cores[c].phase)
               == Returned(s.log, c) + UnderWay(s.cores[c].phase) + Asks(s, c, m)
  {
    hide Step, UnderWay, Returned, Emitted, ValidJob;
    StepLog(key, s, m.core, m.act);
    ReturnedOne(s, m.core, m.act);
    ReturnedMore(s.log, Emitted(s, m.core, m.act), c);
    if m.core == c {
      StepKeepsCall(key, s, c, m.act);
      var past, now := Returned(s.log, c), UnderWay(s.cores[c].phase);
      assert m == Move(c, m.act);
      assert past + now + Asks(s, c, m) == past + (now + Asks(s, c, m));
    } else {
      OthersKeepPhase(key, s, m.core, m.act, c);
    }
  }

  /** In every interleaving, the mailbox calls a core has asked for are, in order,
      those of its calls that returned and then the one under way, if any: no call is
      dropped, invented, reordered or changed on the way. */
  lemma {:induction false} CallsAreThoseAskedFor(key: seq<bv8>, s: State, moves: seq<Move>, c: nat)
    requires Initial(s) && Shape(s) && Schedule(s, moves) && c < |s.cores|
    ensures var t := Exec(key, s, moves);
            Asked(key, s, moves, c) == Returned(t.log, c) + UnderWay(t.cores[c].phase)
  {
    hide Step, UnderWay, Returned, Asks, Initial;
    if moves == [] {
      NoneAsked(s, c);
    } else {
      var n := |moves| - 1;
      CallsAreThoseAskedFor(key, s, moves[..n], c);
      MoveKeepsCalls(key, Exec(key, s, moves[..n]), moves[n], c);
    }
  }

  lemma NoneAsked(s: State, c: nat)
    requires Initial(s) && c < |s.cores|
    ensures Returned(s.log, c) + UnderWay(s.cores[c].phase) == []
  {
  }
}
