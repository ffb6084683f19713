/** What happens to messages over any sequence of atomic mailbox calls. */
module MailboxHistory {
  import opened Sha256Spec
  import opened MerkleDamgard
  import opened HmacSpec
  import opened MailboxSpec

  /** A mailbox call, or a stray write to the authenticated fields and the tag. */
  datatype Deed =
    | Do(op: Op)
    | Disturb(msg: Message, tag: seq<bv8>)

  /** `sent` holds the accepted messages in order. When a message is received, the
      number of the send that was accepted last is put into `took`, and the fields
      handed to the caller into `got`. */
  datatype History = History(
    box: Box,
    sent: seq<Message>,
    took: seq<nat>,
    got: seq<Reply>,
    rejected: nat,
    wiped: nat)

  function Start(b: Box): History {
    History(b, [], [], [], 0, 0)
  }

  function Extend(key: seq<bv8>, h: History, deed: Deed): History {
    match deed
    case Disturb(msg, tag) => h.(box := h.box.(msg := msg, tag := tag))
    case Do(op) =>
      var (box, reply) := Apply(key, h.box, op);
      var t := h.(box := box);
      match reply
      case Sent => t.(sent := h.sent + [box.msg])
      case Received(_, _, _) => t.(took := h.took + [if |h.sent| > 0 then |h.sent| - 1 else 0], got := h.got + [reply])
      case Rejected => t.(rejected := h.rejected + 1)
      case Cleared => t.(wiped := h.wiped + if h.box.status == READY then 1 else 0)
      case Full => t
      case Nothing => t
  }

  function Play(key: seq<bv8>, b: Box, deeds: seq<Deed>): History {
    if deeds == [] then Start(b) else Extend(key, Play(key, b, deeds[..|deeds| - 1]), deeds[|deeds| - 1])
  }

  lemma PlayNothing(key: seq<bv8>, b: Box)
    ensures Play(key, b, []) == Start(b)
  {
  }

  lemma PlayMore(key: seq<bv8>, b: Box, deeds: seq<Deed>, deed: Deed)
    ensures Play(key, b, deeds + [deed]) == Extend(key, Play(key, b, deeds), deed)
  {
    assert (deeds + [deed])[..|deeds|] == deeds;
  }

  function Pending(b: Box): nat {
    if b.status == READY then 1 else 0
  }

  /** Conservation, stray writes included: every accepted message was received,
      rejected or wiped by a clear, or is still waiting. */
  lemma {:induction false} Conservation(key: seq<bv8>, b: Box, deeds: seq<Deed>)
    requires b.status != READY
    ensures var h := Play(key, b, deeds);
            |h.sent| == |h.took| + h.rejected + h.wiped + Pending(h.box)
  {
    hide Tag;
    if deeds != [] {
      Conservation(key, b, deeds[..|deeds| - 1]);
    }
  }

  /** Neither takes a message out of a mailbox. */
  predicate Leaves(deed: Deed) {
    deed.Disturb? || deed.op.Send?
  }

  /** Send `j` is followed by nothing that could take its message. */
  ghost predicate Unanswered(deeds: seq<Deed>, j: nat) {
    && j < |deeds| && deeds[j].Do? && deeds[j].op.Send?
    && forall i :: j < i < |deeds| ==> Leaves(deeds[i])
  }

  /** Whether a message waits can be told from the calls alone. */
  lemma {:induction false} ReadyIff(key: seq<bv8>, b: Box, deeds: seq<Deed>)
    requires b.status != READY
    ensures Play(key, b, deeds).box.status == READY <==> exists j :: Unanswered(deeds, j)
  {
    hide Tag;
    if deeds != [] {
      var n := |deeds| - 1;
      ReadyIff(key, b, deeds[..n]);
      var last := deeds[n];
      if last.Do? && last.op.Send? {
        assert Unanswered(deeds, n);
      } else if last.Disturb? {
        UnansweredMore(deeds, n);
      } else {
        assert forall j :: Unanswered(deeds, j) ==> Leaves(deeds[n]);
      }
    }
  }

  lemma UnansweredMore(deeds: seq<Deed>, n: nat)
    requires |deeds| == n + 1 && deeds[n].Disturb?
    ensures (exists j :: Unanswered(deeds, j)) <==> (exists j :: Unanswered(deeds[..n], j))
  {
    if j: nat :| Unanswered(deeds, j) {
      assert Unanswered(deeds[..n], j);
    }
    if j: nat :| Unanswered(deeds[..n], j) {
      assert forall i :: 0 <= i < n ==> deeds[..n][i] == deeds[i];
      assert Unanswered(deeds, j);
    }
  }

  /** Clear `k` comes after a send with only sends and stray writes in between. */
  ghost predicate ClearsSent(deeds: seq<Deed>, k: nat) {
    k < |deeds| && deeds[k] == Do(Clear) && exists j :: Unanswered(deeds[..k], j)
  }

  ghost predicate SendMeetsClear(deeds: seq<Deed>) {
    exists k :: ClearsSent(deeds, k)
  }

  lemma {:induction false} WipedIff(key: seq<bv8>, b: Box, deeds: seq<Deed>)
    requires b.status != READY
    ensures Play(key, b, deeds).wiped > 0 <==> SendMeetsClear(deeds)
  {
    hide Tag, Unanswered;
    if deeds != [] {
      var n := |deeds| - 1;
      WipedIff(key, b, deeds[..n]);
      ReadyIff(key, b, deeds[..n]);
      if k: nat :| ClearsSent(deeds[..n], k) {
        assert deeds[..n][..k] == deeds[..k];
        assert ClearsSent(deeds, k);
      }
      if k: nat :| ClearsSent(deeds, k) {
        assert k == n || deeds[..n][..k] == deeds[..k];
        assert k == n || ClearsSent(deeds[..n], k);
      }
      if Play(key, b, deeds[..n]).box.status == READY && deeds[n] == Do(Clear) {
        assert ClearsSent(deeds, n);
      }
    }
  }

  /** No accepted message is lost exactly when no clear follows a send with nothing
      but sends and stray writes in between. */
  lemma NothingLostIff(key: seq<bv8>, b: Box, deeds: seq<Deed>)
    requires b.status != READY
    ensures var h := Play(key, b, deeds);
            |h.sent| == |h.took| + h.rejected + Pending(h.box) <==> !SendMeetsClear(deeds)
  {
    hide Play, SendMeetsClear;
    Conservation(key, b, deeds);
    WipedIff(key, b, deeds);
  }

  /** The pattern of the dispatcher task that loses one: a send accepted after the
      receive and before the clear. */
  lemma SendBeforeClearIsLost(key: seq<bv8>, b: Box, first: Op, second: Op)
    requires b.status != READY && first.Send? && second.Send?
    ensures var h := Play(key, b, [Do(first), Do(Receive), Do(second), Do(Clear)]);
            |h.sent| == 2 && |h.took| == 1 && h.wiped == 1 && h.box.status == EMPTY
  {
    hide Tag, Play;
    assert Play(key, b, []) == Start(b) by { PlayNothing(key, b); }
    var d1 := [] + [Do(first)];
    var d2 := d1 + [Do(Receive)];
    var d3 := d2 + [Do(second)];
    var d4 := d3 + [Do(Clear)];
    PlayMore(key, b, [], Do(first));
    PlayMore(key, b, d1, Do(Receive));
    PlayMore(key, b, d2, Do(second));
    PlayMore(key, b, d3, Do(Clear));
    assert d4 == [Do(first), Do(Receive), Do(second), Do(Clear)];
  }

  ghost predicate Undisturbed(deeds: seq<Deed>) {
    forall i :: 0 <= i < |deeds| ==> deeds[i].Do?
  }

  /** The fields a receive handed out. */
  predicate Gives(reply: Reply, m: Message) {
    reply == Received(m.sender_id, m.msg_type, m.msg_data)
  }

  /** What holds of every history made of calls alone. */
  ghost predicate Orderly(key: seq<bv8>, b: Box, h: History) {
    && |h.took| == |h.got|
    && (forall k :: 0 <= k < |h.sent| ==> h.sent[k].counter == (b.msg.counter + k + 1) % 0x1_0000_0000)
    && h.box.msg.counter == (b.msg.counter + |h.sent|) % 0x1_0000_0000
    && (forall i :: 0 <= i < |h.took| ==> h.took[i] < |h.sent| && Gives(h.got[i], h.sent[h.took[i]]))
    && (forall i, j :: 0 <= i < j < |h.took| ==> h.took[i] < h.took[j])
    && (h.box.status == READY ==>
          && |h.sent| > 0 && h.box.msg == h.sent[|h.sent| - 1] && h.box.tag == Tag(key, h.box.msg)
          && (forall i :: 0 <= i < |h.took| ==> h.took[i] < |h.sent| - 1))
    && h.rejected == 0
  }

  lemma ExtendOrderly(key: seq<bv8>, b: Box, h: History, op: Op)
    requires Orderly(key, b, h)
    ensures Orderly(key, b, Extend(key, h, Do(op)))
  {
    hide Tag;
    var t := Extend(key, h, Do(op));
    match op
    case Send(_, _, _) =>
      if h.box.status != READY {
        CounterStep(b.msg.counter, |h.sent|);
        assert t.sent[|h.sent|].counter == (b.msg.counter + |h.sent| + 1) % 0x1_0000_0000;
      }
    case Receive =>
    case Clear =>
  }

  lemma CounterStep(c: nat, n: nat)
    ensures ((c + n) % 0x1_0000_0000 + 1) % 0x1_0000_0000 == (c + n + 1) % 0x1_0000_0000
  {
  }

  /** With no stray writes: what is received is, in order and each at most once,
      what was accepted; counters number the accepted messages; a ready mailbox
      holds the last accepted message with its tag; and nothing is ever rejected. */
  lemma {:induction false} CallsAreOrderly(key: seq<bv8>, b: Box, deeds: seq<Deed>)
    requires b.status != READY && Undisturbed(deeds)
    ensures Orderly(key, b, Play(key, b, deeds))
  {
    hide Orderly, Extend, Apply;
    if deeds == [] {
      StartOrderly(key, b);
    } else {
      var n := |deeds| - 1;
      CallsAreOrderly(key, b, deeds[..n]);
      ExtendOrderly(key, b, Play(key, b, deeds[..n]), deeds[n].op);
    }
  }

  lemma StartOrderly(key: seq<bv8>, b: Box)
    requires b.status != READY
    ensures Orderly(key, b, Start(b))
  {
    hide Tag;
  }

  /** Counters of received messages strictly increase until the 32-bit counter wraps. */
  lemma CountersIncrease(key: seq<bv8>, b: Box, deeds: seq<Deed>, i: nat, j: nat)
    requires b.status != READY && b.msg.counter == 0 && Undisturbed(deeds)
    requires |Play(key, b, deeds).sent| < 0x1_0000_0000
    requires i < j < |Play(key, b, deeds).took|
    ensures var h := Play(key, b, deeds);
            h.took[i] < h.took[j] < |h.sent| && h.sent[h.took[i]].counter < h.sent[h.took[j]].counter
  {
    hide Tag, Play;
    CallsAreOrderly(key, b, deeds);
  }

  /** Receive succeeds exactly when a message is waiting; otherwise there was none. */
  lemma ReceiveSucceedsIffReady(key: seq<bv8>, b: Box, deeds: seq<Deed>)
    requires b.status != READY && Undisturbed(deeds)
    ensures var h := Play(key, b, deeds);
            var reply := Apply(key, h.box, Receive).1;
            (reply.Received? <==> h.box.status == READY) && (reply == Nothing <==> h.box.status != READY)
  {
    hide Tag, Play;
    CallsAreOrderly(key, b, deeds);
  }

  /** A stray write that changes an authenticated field of a waiting message and
      leaves its tag: the receive rejects it exactly when the altered fields have
      another tag. If they have the same, the two tag computations gave SHA-256's
      compression function different inputs and got one output. */
  lemma AlteredMessage(key: seq<bv8>, b: Box, deeds: seq<Deed>, altered: Message)
    returns (v1: Words, m1: Block, v2: Words, m2: Block)
    requires b.status != READY && Undisturbed(deeds)
    requires var box := Play(key, b, deeds).box; box.status == READY && box.msg != altered
    ensures var box := Play(key, b, deeds).box;
            var reply := Apply(key, box.(msg := altered), Receive).1;
            && (reply == Rejected <==> Tag(key, altered) != Tag(key, box.msg))
            && (reply != Rejected ==>
                  Collides(Compress, v1, m1, v2, m2) && TagsPerform(key, altered, box.msg, v1, m1, v2, m2))
  {
    hide Tag, Play, Collides, Compress, TagsPerform;
    CallsAreOrderly(key, b, deeds);
    var box := Play(key, b, deeds).box;
    v1, v2 := H0, H0;
    m1, m2 := seq(64, _ => 0), seq(64, _ => 0);
    if Tag(key, altered) == Tag(key, box.msg) {
      v1, m1, v2, m2 := TagCollision(key, altered, box.msg);
    }
  }
}
