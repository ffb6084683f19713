/** A mailbox as its users are meant to see it: send, receive and clear happen at
    once. The fine-grained machine of `Ipc` is proved to refine this one. */
module MailboxSpec {
  import opened Bytes
  import opened HmacSpec

  const MSG_NONE: u32 := 0
  const EMPTY: u32 := 0
  const READY: u32 := 1
  const PROCESSED: u32 := 2

  /** `mailbox_t` without its lock word. */
  datatype Box = Box(msg: Message, status: u32, tag: seq<bv8>)

  datatype Op =
    | Send(sender: u32, msg_type: u32, msg_data: u32)
    | Receive
    | Clear

  /** What a call gives back. The C code returns 0 both for an empty mailbox and
      for a rejected message, and tells them apart only in what it prints. */
  datatype Reply =
    | Sent
    | Full
    | Received(sender_id: u32, msg_type: u32, msg_data: u32)
    | Nothing
    | Rejected
    | Cleared

  function NextMessage(b: Box, op: Op): Message
    requires op.Send?
  {
    Message(op.sender, op.msg_type, op.msg_data, (b.msg.counter + 1) % 0x1_0000_0000)
  }

  /** One call, all at once. */
  function Apply(key: seq<bv8>, b: Box, op: Op): (Box, Reply) {
    match op
    case Send(_, _, _) =>
      if b.status == READY then (b, Full)
      else
        var m := NextMessage(b, op);
        (Box(m, READY, Tag(key, m)), Sent)
    case Receive =>
      if b.status != READY then (b, Nothing)
      else if b.tag == Tag(key, b.msg) then
        (b.(status := PROCESSED), Received(b.msg.sender_id, b.msg.msg_type, b.msg.msg_data))
      else (b.(status := PROCESSED), Rejected)
    case Clear =>
      (b.(status := EMPTY, msg := b.msg.(msg_type := MSG_NONE)), Cleared)
  }
}
