/** The critical sections of include/ipc/ipc.c, one memory access per step, and the
    simulation of each by the atomic call of `MailboxSpec`. */
module CriticalSections {
  import opened Bytes
  import opened HmacSpec
  import opened MailboxSpec
  import opened Sha256Spec

  /** Where a core is between acquire and release of a mailbox lock. */
  datatype Crit =
    | SendCheck
    | SendSender
    | SendType
    | SendData
    | SendCountLoad
    | SendCountStore(count: u32)
    | SendTagRead(bytes: seq<bv8>)
    | SendTagByte(i: nat, tag: seq<bv8>)
    | SendReady
    | ReceiveCheck
    | VerifyRead(bytes: seq<bv8>)
    | VerifyByte(i: nat, expected: seq<bv8>, change: bv8)
    | TakeSender
    | TakeType(sender_id: u32)
    | TakeData(sender_id: u32, msg_type: u32)
    | TakeDone(sender_id: u32, msg_type: u32, msg_data: u32)
    | RejectCheck
    | RejectDone
    | ClearStatus
    | ClearType
    | Release(reply: Reply)

  function FieldOf(m: Message, k: nat): u32 {
    if k == 0 then m.sender_id else if k == 1 then m.msg_type else if k == 2 then m.msg_data else m.counter
  }

  /** `msg[k]` in hmac_tag_compute: each of the sixteen bytes loads its field anew. */
  function MessageByte(m: Message, k: nat): bv8 {
    ShiftedByte(FieldOf(m, k / 4), 3 - k % 4)
  }

  function Entry(op: Op): Crit {
    match op
    case Send(_, _, _) => SendCheck
    case Receive => ReceiveCheck
    case Clear => ClearStatus
  }

  function CritStep(key: seq<bv8>, op: Op, crit: Crit, b: Box): (Crit, Box) {
    match crit
    case SendCheck => (if b.status == READY then Release(Full) else SendSender, b)
    case SendSender => (SendType, if op.Send? then b.(msg := b.msg.(sender_id := op.sender)) else b)
    case SendType => (SendData, if op.Send? then b.(msg := b.msg.(msg_type := op.msg_type)) else b)
    case SendData => (SendCountLoad, if op.Send? then b.(msg := b.msg.(msg_data := op.msg_data)) else b)
    case SendCountLoad => (SendCountStore(b.msg.counter), b)
    case SendCountStore(count) =>
      (SendTagRead([]), b.(msg := b.msg.(counter := (count + 1) % 0x1_0000_0000)))
    case SendTagRead(bytes) =>
      if |bytes| < 16 then (SendTagRead(bytes + [MessageByte(b.msg, |bytes|)]), b)
      else (SendTagByte(0, Hmac(Compress, key, bytes)), b)
    case SendTagByte(i, tag) =>
      if i < |tag| && i < |b.tag| then (SendTagByte(i + 1, tag), b.(tag := b.tag[i := tag[i]]))
      else (SendReady, b)
    case SendReady => (Release(Sent), b.(status := READY))
    case ReceiveCheck => (if b.status == READY then VerifyRead([]) else RejectCheck, b)
    case VerifyRead(bytes) =>
      if |bytes| < 16 then (VerifyRead(bytes + [MessageByte(b.msg, |bytes|)]), b)
      else (VerifyByte(0, Hmac(Compress, key, bytes), 0), b)
    case VerifyByte(i, expected, change) =>
      if i < |expected| && i < |b.tag| then (VerifyByte(i + 1, expected, change | (expected[i] ^ b.tag[i])), b)
      else (if change == 0 then TakeSender else RejectCheck, b)
    case TakeSender => (TakeType(b.msg.sender_id), b)
    case TakeType(sender) => (TakeData(sender, b.msg.msg_type), b)
    case TakeData(sender, kind) => (TakeDone(sender, kind, b.msg.msg_data), b)
    case TakeDone(sender, kind, data) => (Release(Received(sender, kind, data)), b.(status := PROCESSED))
    case RejectCheck => (if b.status == READY then RejectDone else Release(Nothing), b)
    case RejectDone => (Release(Rejected), b.(status := PROCESSED))
    case ClearStatus => (ClearType, b.(status := EMPTY))
    case ClearType => (Release(Cleared), b.(msg := b.msg.(msg_type := MSG_NONE)))
    case Release(_) => (crit, b)
  }

  /** How far a critical section that began on box `a` has come, with `b` in memory. */
  ghost predicate InProgress(key: seq<bv8>, op: Op, a: Box, crit: Crit, b: Box) {
    if op.Send? then SendProgress(key, op, a, crit, b)
    else if op.Receive? then ReceiveProgress(key, a, crit, b)
    else ClearProgress(key, a, crit, b)
  }

  ghost predicate SendProgress(key: seq<bv8>, op: Op, a: Box, crit: Crit, b: Box)
    requires op.Send?
  {
    var s := a.(msg := a.msg.(sender_id := op.sender));
    var t := a.(msg := a.msg.(sender_id := op.sender, msg_type := op.msg_type));
    var d := a.(msg := a.msg.(sender_id := op.sender, msg_type := op.msg_type, msg_data := op.msg_data));
    var n := NextMessage(a, op);
    |a.tag| == 32 &&
    match crit
    case SendCheck => b == a
    case SendSender => a.status != READY && b == a
    case SendType => a.status != READY && b == s
    case SendData => a.status != READY && b == t
    case SendCountLoad => a.status != READY && b == d
    case SendCountStore(count) => a.status != READY && b == d && count == a.msg.counter
    case SendTagRead(bytes) =>
      a.status != READY && b == a.(msg := n) && |bytes| <= 16 && bytes == Encode(n)[..|bytes|]
    case SendTagByte(i, tag) =>
      a.status != READY && tag == Tag(key, n) && i <= 32 && b == a.(msg := n, tag := tag[..i] + a.tag[i..])
    case SendReady => a.status != READY && b == a.(msg := n, tag := Tag(key, n))
    case Release(reply) => (b, reply) == Apply(key, a, op)
    case _ => false
  }

  ghost predicate ReceiveProgress(key: seq<bv8>, a: Box, crit: Crit, b: Box) {
    |a.tag| == 32 &&
    match crit
    case ReceiveCheck => b == a
    case VerifyRead(bytes) =>
      a.status == READY && b == a && |bytes| <= 16 && bytes == Encode(a.msg)[..|bytes|]
    case VerifyByte(i, expected, change) =>
      a.status == READY && b == a && i <= 32 && expected == Tag(key, a.msg) &&
      (change == 0 <==> expected[..i] == a.tag[..i])
    case TakeSender => a.status == READY && b == a && a.tag == Tag(key, a.msg)
    case TakeType(s) => a.status == READY && b == a && a.tag == Tag(key, a.msg) && s == a.msg.sender_id
    case TakeData(s, t) =>
      a.status == READY && b == a && a.tag == Tag(key, a.msg) && s == a.msg.sender_id && t == a.msg.msg_type
    case TakeDone(s, t, d) =>
      a.status == READY && b == a && a.tag == Tag(key, a.msg) &&
      s == a.msg.sender_id && t == a.msg.msg_type && d == a.msg.msg_data
    case RejectCheck => b == a && (a.status == READY ==> a.tag != Tag(key, a.msg))
    case RejectDone => b == a && a.status == READY && a.tag != Tag(key, a.msg)
    case Release(reply) => (b, reply) == Apply(key, a, Receive)
    case _ => false
  }

  ghost predicate ClearProgress(key: seq<bv8>, a: Box, crit: Crit, b: Box) {
    match crit
    case ClearStatus => b == a
    case ClearType => b == a.(status := EMPTY)
    case Release(reply) => (b, reply) == Apply(key, a, Clear)
    case _ => false
  }

  lemma EncodeByte(m: Message, k: nat)
    requires k < 16
    ensures Encode(m)[k] == MessageByte(m, k)
  {
    hide BigEndian, ShiftedByte;
    BigEndianDigit(FieldOf(m, k / 4), 4, 3 - k % 4);
  }

  lemma SendProgresses(key: seq<bv8>, op: Op, a: Box, crit: Crit, b: Box)
    requires op.Send? && SendProgress(key, op, a, crit, b)
    ensures var (crit', b') := CritStep(key, op, crit, b); SendProgress(key, op, a, crit', b')
  {
    hide Encode, Hmac, MessageByte;
    match crit
    case SendTagRead(bytes) =>
      var n := NextMessage(a, op);
      if |bytes| < 16 {
        EncodeByte(n, |bytes|);
        assert Encode(n)[..|bytes| + 1] == Encode(n)[..|bytes|] + [Encode(n)[|bytes|]];
      } else {
        assert bytes == Encode(n);
      }
    case SendTagByte(i, tag) =>
      if i < 32 {
        assert (tag[..i] + a.tag[i..])[i := tag[i]] == tag[..i + 1] + a.tag[i + 1..];
      } else {
        assert tag[..i] + a.tag[i..] == tag;
      }
    case _ =>
  }

  lemma ReceiveProgresses(key: seq<bv8>, op: Op, a: Box, crit: Crit, b: Box)
    requires op.Receive? && ReceiveProgress(key, a, crit, b)
    ensures var (crit', b') := CritStep(key, op, crit, b); ReceiveProgress(key, a, crit', b')
  {
    hide Encode, Hmac, MessageByte;
    match crit
    case VerifyRead(bytes) => VerifyReads(key, a, bytes);
    case VerifyByte(i, expected, change) => VerifyBytes(key, a, i, expected, change);
    case _ =>
  }

  lemma VerifyReads(key: seq<bv8>, a: Box, bytes: seq<bv8>)
    requires ReceiveProgress(key, a, VerifyRead(bytes), a)
    ensures ReceiveProgress(key, a, CritStep(key, Receive, VerifyRead(bytes), a).0, a)
  {
    hide Encode, Hmac, MessageByte;
    if |bytes| < 16 {
      EncodeByte(a.msg, |bytes|);
      assert Encode(a.msg)[..|bytes| + 1] == Encode(a.msg)[..|bytes|] + [Encode(a.msg)[|bytes|]];
    } else {
      assert bytes == Encode(a.msg);
      assert Hmac(Compress, key, bytes)[..0] == a.tag[..0];
    }
  }

  lemma VerifyBytes(key: seq<bv8>, a: Box, i: nat, expected: seq<bv8>, change: bv8)
    requires ReceiveProgress(key, a, VerifyByte(i, expected, change), a)
    ensures ReceiveProgress(key, a, CritStep(key, Receive, VerifyByte(i, expected, change), a).0, a)
  {
    hide Tag;
    if i < 32 {
      OrXor(change, expected[i], a.tag[i]);
      assert expected[..i + 1] == expected[..i] + [expected[i]];
      assert a.tag[..i + 1] == a.tag[..i] + [a.tag[i]];
    } else {
      assert expected[..i] == expected && a.tag[..i] == a.tag;
    }
  }

  lemma ClearProgresses(key: seq<bv8>, op: Op, a: Box, crit: Crit, b: Box)
    requires op.Clear? && ClearProgress(key, a, crit, b)
    ensures var (crit', b') := CritStep(key, op, crit, b); ClearProgress(key, a, crit', b')
  {
  }
}
