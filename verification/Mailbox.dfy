/** The mailbox calls of include/ipc/ipc.c as one core runs them between acquire and
    release, on the struct in memory and with the real tag computation. */
module Mailbox {
  import opened Bytes
  import opened HmacSpec
  import opened MailboxSpec
  import opened HmacSha256

  /** `mailbox_t`, and the shared key it is authenticated with. */
  class MailboxStruct {
    var lock: u32
    var msg_type: u32
    var msg_data: u32
    var sender_id: u32
    var status: u32
    var counter: u32
    const tag: array<bv8>
    const key: array<bv8>

    ghost predicate Valid() {
      tag.Length == 32 && key.Length == 32 && tag != key
    }

    function Fields(): Message
      reads this
    {
      Message(sender_id, msg_type, msg_data, counter)
    }

    function Contents(): Box
      reads this, tag
    {
      Box(Fields(), status, tag[..])
    }

    /** `mailbox_init`; the tag is left as it is. */
    constructor (tag: array<bv8>, key: array<bv8>)
      requires tag.Length == 32 && key.Length == 32 && tag != key
      ensures Valid() && this.tag == tag && this.key == key && lock == 0
      ensures Contents() == Box(Message(0xff, MSG_NONE, 0, 0), EMPTY, tag[..])
    {
      this.tag, this.key := tag, key;
      lock, msg_type, msg_data, sender_id, status, counter := 0, MSG_NONE, 0, 0xff, 0, 0;
    }

    /** `mailbox_send` inside its lock: 0 when accepted, -1 when a message waits. */
    method Send(mpidr: u32, kind: u32, data: u32) returns (result: int)
      requires Valid()
      modifies this, tag
      ensures lock == old(lock)
      ensures Contents() == Apply(key[..], old(Contents()), Op.Send(mpidr % 256, kind, data)).0
      ensures Apply(key[..], old(Contents()), Op.Send(mpidr % 256, kind, data)).1
           == if result == 0 then Sent else Full
      ensures result == if old(status) == 1 then -1 else 0
      ensures result == -1 ==> Contents() == old(Contents())
      ensures result == 0 ==> Fields() == Message(mpidr % 256, kind, data, (old(counter) + 1) % 0x1_0000_0000)
      ensures result == 0 ==> status == 1 && tag[..] == Tag(key[..], Fields())
    {
      hide Tag;
      if status == 1 {
        return -1;
      }
      sender_id := mpidr % 256;
      msg_type := kind;
      msg_data := data;
      counter := (counter + 1) % 0x1_0000_0000;
      TagCompute(key, Fields(), tag);
      status := 1;
      return 0;
    }

    /** `mailbox_receive` inside its lock. The out-parameters are written only on success. */
    method Receive(sender0: u32, kind0: u32, data0: u32)
      returns (result: int, sender: u32, kind: u32, data: u32)
      requires Valid()
      modifies this
      ensures lock == old(lock)
      ensures Contents() == Apply(key[..], old(Contents()), Op.Receive).0
      ensures result == 1 ==> Apply(key[..], old(Contents()), Op.Receive).1 == Received(sender, kind, data)
      ensures result == 0 ==> Apply(key[..], old(Contents()), Op.Receive).1 in {Nothing, Rejected}
      ensures result == 0 ==> (sender, kind, data) == (sender0, kind0, data0)
      ensures result == if old(status) == 1 && tag[..] == Tag(key[..], old(Fields())) then 1 else 0
      ensures result == 1 ==> (sender, kind, data) == (sender_id, msg_type, msg_data)
      ensures Fields() == old(Fields()) && status == if old(status) == 1 then 2 else old(status)
    {
      hide Tag;
      result, sender, kind, data := 0, sender0, kind0, data0;
      var verified := false;
      if status == 1 {
        verified := TagVerify(key, Fields(), tag);
      }
      if status == 1 && verified {
        sender := sender_id;
        kind := msg_type;
        data := msg_data;
        status := 2;
        result := 1;
      } else if status == 1 {
        status := 2;
        result := 0;
      }
    }

    /** `mailbox_clear` inside its lock. */
    method Clear()
      requires Valid()
      modifies this
      ensures lock == old(lock)
      ensures Contents() == Apply(key[..], old(Contents()), Op.Clear).0
      ensures status == 0 && Fields() == old(Fields()).(msg_type := 0)
    {
      status := 0;
      msg_type := MSG_NONE;
    }
  }
}
