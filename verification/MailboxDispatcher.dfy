/** The acknowledging task of dispatcher/dispatcher.c: one turn of its loop, with no
    other core at the mailboxes in between. */
module MailboxDispatcher {
  import opened Bytes
  import opened HmacSpec
  import opened MailboxSpec
  import opened Mailbox

  const MSG_ACK: u32 := 3

  /** The acknowledgement of a message with this payload. */
  function AckOp(cpu: nat, data: u32): Op {
    Send(cpu % 256, MSG_ACK, (data + cpu * 0x1_0000) % 0x1_0000_0000)
  }

  /** A waiting message names a core with a mailbox, which the code does not check;
      an empty mailbox may say anything, and says 0xFF after mailbox_init. */
  predicate Answerable(b: Box, n: nat) {
    b.status == READY ==> b.msg.sender_id < n
  }

  /** All mailboxes after one turn. */
  function Turn(key: seq<bv8>, boxes: seq<Box>, cpu: nat): (r: seq<Box>)
    requires cpu < |boxes| && Answerable(boxes[cpu], |boxes|)
    ensures |r| == |boxes|
  {
    var (own, reply) := Apply(key, boxes[cpu], Receive);
    var taken := boxes[cpu := own];
    match reply
    case Received(sender, _, data) =>
      var acked := taken[sender := Apply(key, taken[sender], AckOp(cpu, data)).0];
      acked[cpu := Apply(key, acked[cpu], Clear).0]
    case _ => taken
  }

  predicate AckWaits(key: seq<bv8>, before: Box, after: Box, cpu: nat, data: u32) {
    var m := NextMessage(before, AckOp(cpu, data));
    after == Box(m, READY, Tag(key, m))
  }

  /** After a turn that took a genuine message, the task's own mailbox is empty, and
      the acknowledgement waits for the sender exactly when the sender is another
      core whose mailbox was not occupied. An occupied mailbox is left as it was. */
  lemma AckOutcome(key: seq<bv8>, boxes: seq<Box>, cpu: nat)
    requires cpu < |boxes| && Answerable(boxes[cpu], |boxes|)
    requires boxes[cpu].status == READY && boxes[cpu].tag == Tag(key, boxes[cpu].msg)
    ensures var after, sender := Turn(key, boxes, cpu), boxes[cpu].msg.sender_id;
            && after[cpu].status == EMPTY
            && (AckWaits(key, boxes[sender], after[sender], cpu, boxes[cpu].msg.msg_data) <==>
                  sender != cpu && boxes[sender].status != READY)
            && (sender != cpu && boxes[sender].status == READY ==> after[sender] == boxes[sender])
            && (forall i :: 0 <= i < |boxes| && i != cpu && i != sender ==> after[i] == boxes[i])
  {
    hide Tag;
    var sender := boxes[cpu].msg.sender_id;
    CounterMoves(boxes[sender].msg.counter);
  }

  /** An acknowledgement has type 3 and names its sender; its payload has the core in
      the upper half and a 16-bit payload of the message in the lower. */
  lemma AckCarries(cpu: nat, data: u32)
    requires cpu < 256 && data < 0x1_0000
    ensures AckOp(cpu, data).Send? && AckOp(cpu, data).sender == cpu && AckOp(cpu, data).msg_type == 3
    ensures AckOp(cpu, data).msg_data % 0x1_0000 == data && AckOp(cpu, data).msg_data / 0x1_0000 == cpu
  {
  }

  /** With no message waiting a turn changes nothing, and a message whose tag does not
      match is only marked as processed. */
  lemma NoGenuineMessage(key: seq<bv8>, boxes: seq<Box>, cpu: nat)
    requires cpu < |boxes| && Answerable(boxes[cpu], |boxes|)
    requires boxes[cpu].status != READY || boxes[cpu].tag != Tag(key, boxes[cpu].msg)
    ensures Turn(key, boxes, cpu) ==
            if boxes[cpu].status == READY then boxes[cpu := boxes[cpu].(status := PROCESSED)] else boxes
  {
    hide Tag;
    assert boxes[cpu := boxes[cpu]] == boxes;
  }

  lemma CounterMoves(n: u32)
    ensures (n + 1) % 0x1_0000_0000 != n
  {
  }

  // ---- The loop body on the structs ----

  ghost predicate Separate(boxes: seq<MailboxStruct>) {
    && (forall i :: 0 <= i < |boxes| ==> boxes[i].Valid())
    && (forall i, j :: 0 <= i < |boxes| && 0 <= j < |boxes| ==>
          boxes[i].key == boxes[j].key && boxes[i].tag != boxes[j].key)
    && forall i, j :: 0 <= i < j < |boxes| ==> boxes[i] != boxes[j] && boxes[i].tag != boxes[j].tag
  }

  ghost function View(boxes: seq<MailboxStruct>): (r: seq<Box>)
    reads boxes, set i | 0 <= i < |boxes| :: boxes[i].tag
    ensures |r| == |boxes|
  {
    seq(|boxes|, i requires 0 <= i < |boxes| reads boxes, set j | 0 <= j < |boxes| :: boxes[j].tag => boxes[i].Contents())
  }

  method LoopBody(boxes: seq<MailboxStruct>, cpu: nat) returns (printed: bool)
    requires Separate(boxes) && cpu < |boxes| && Answerable(boxes[cpu].Contents(), |boxes|)
    modifies boxes, set i | 0 <= i < |boxes| :: boxes[i].tag
    ensures View(boxes) == Turn(boxes[cpu].key[..], old(View(boxes)), cpu)
  {
    hide Apply, Tag, MailboxStruct.Fields;
    ghost var key, v0 := boxes[cpu].key[..], View(boxes);
    printed := false;
    var result, sender, kind, data := boxes[cpu].Receive(0, 0, 0);
    ghost var v1 := View(boxes);
    assert v1 == v0[cpu := Apply(key, v0[cpu], Receive).0];
    ReceivedFields(key, v0[cpu]);
    if result == 1 {
      printed := true;
      var ack_data := (data + cpu * 0x1_0000) % 0x1_0000_0000;
      var sent := boxes[sender].Send(cpu % 0x1_0000_0000, MSG_ACK, ack_data);
      ghost var v2 := View(boxes);
      LowByte(cpu);
      assert v2 == v1[sender := Apply(key, v1[sender], AckOp(cpu, data)).0];
      boxes[cpu].Clear();
      assert View(boxes) == v2[cpu := Apply(key, v2[cpu], Clear).0];
    }
  }

  lemma ReceivedFields(key: seq<bv8>, b: Box)
    ensures Apply(key, b, Receive).1.Received? ==>
              b.status == READY && Apply(key, b, Receive).1.sender_id == b.msg.sender_id
  {
    hide Tag;
  }

  lemma LowByte(n: nat)
    ensures n % 0x1_0000_0000 % 256 == n % 256
  {
  }
}
