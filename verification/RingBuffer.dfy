/** include/ringbuffer/ringbuf.c called by one core: a FIFO of at most 255 bytes. */
module RingBuffer {
  const SIZE := 256
  const CAPACITY := 255

  /** `(index + 1) & (RING_BUFFER_SIZE - 1)`. */
  function Next(index: nat): (next: nat)
    ensures next < SIZE
  {
    (index + 1) % SIZE
  }

  /** How many bytes wait. */
  function Level(head: nat, tail: nat): (n: nat)
    requires head < SIZE && tail < SIZE
    ensures n <= CAPACITY
  {
    (head + SIZE - tail) % SIZE
  }

  /** The slot of the i-th waiting byte. */
  function At(tail: nat, i: nat): (slot: nat)
    ensures slot < SIZE
  {
    (tail + i) % SIZE
  }

  /** The unread bytes, oldest first. */
  function Unread(head: nat, tail: nat, data: seq<bv8>): (q: seq<bv8>)
    requires head < SIZE && tail < SIZE && |data| == SIZE
    ensures |q| == Level(head, tail)
  {
    seq(Level(head, tail), i requires 0 <= i => data[At(tail, i)])
  }

  /** The two index comparisons decide empty and full. */
  lemma Unequal(head: nat, tail: nat)
    requires head < SIZE && tail < SIZE
    ensures head == tail <==> Level(head, tail) == 0
    ensures Next(head) == tail <==> Level(head, tail) == CAPACITY
  {
  }

  lemma LevelAfterPut(head: nat, tail: nat)
    requires head < SIZE && tail < SIZE && Next(head) != tail
    ensures Level(Next(head), tail) == Level(head, tail) + 1
    ensures At(tail, Level(head, tail)) == head
  {
  }

  lemma WaitingElsewhere(head: nat, tail: nat, i: nat)
    requires head < SIZE && tail < SIZE && i < Level(head, tail)
    ensures At(tail, i) != head
  {
  }

  lemma LevelAfterGet(head: nat, tail: nat)
    requires head < SIZE && tail < SIZE && head != tail
    ensures Level(head, tail) == Level(head, Next(tail)) + 1
    ensures At(tail, 0) == tail
  {
  }

  lemma AtNext(tail: nat, i: nat)
    ensures At(Next(tail), i) == At(tail, i + 1)
  {
  }

  lemma UnreadAfterPut(head: nat, tail: nat, data: seq<bv8>, c: bv8)
    requires head < SIZE && tail < SIZE && |data| == SIZE && Next(head) != tail
    ensures Unread(Next(head), tail, data[head := c]) == Unread(head, tail, data) + [c]
  {
    hide Next, Level, At;
    LevelAfterPut(head, tail);
    var q, r := Unread(head, tail, data) + [c], Unread(Next(head), tail, data[head := c]);
    forall k | 0 <= k < |q|
      ensures r[k] == q[k]
    {
      if k < Level(head, tail) {
        WaitingElsewhere(head, tail, k);
      }
    }
  }

  lemma UnreadAfterGet(head: nat, tail: nat, data: seq<bv8>)
    requires head < SIZE && tail < SIZE && |data| == SIZE && head != tail
    ensures Unread(head, tail, data) == [data[tail]] + Unread(head, Next(tail), data)
  {
    hide Next, Level, At;
    LevelAfterGet(head, tail);
    var q, r := Unread(head, tail, data), Unread(head, Next(tail), data);
    forall k | 0 <= k < |q|
      ensures q[k] == ([data[tail]] + r)[k]
    {
      if k > 0 {
        AtNext(tail, k - 1);
      }
    }
  }

  class Ring {
    var head: nat
    var tail: nat
    const data: array<bv8>

    ghost predicate Valid()
      reads this
    {
      data.Length == SIZE && head < SIZE && tail < SIZE
    }

    ghost function Contents(): (q: seq<bv8>)
      requires Valid()
      reads this, data
      ensures |q| <= CAPACITY
    {
      Unread(head, tail, data[..])
    }

    /** `ring_buffer_init`. */
    constructor ()
      ensures Valid() && Contents() == [] && fresh(data)
    {
      head, tail := 0, 0;
      data := new bv8[SIZE];
    }

    /** `ring_buffer_put`: -1 exactly when 255 bytes wait, otherwise the byte is queued. */
    method Put(c: bv8) returns (result: int)
      requires Valid()
      modifies this, data
      ensures Valid()
      ensures result == if |old(Contents())| == 255 then -1 else 0
      ensures Contents() == if result == 0 then old(Contents()) + [c] else old(Contents())
      ensures tail == old(tail) && (result == -1 ==> head == old(head) && data[..] == old(data[..]))
    {
      hide Unread, Next, Level;
      Unequal(head, tail);
      var next_head := Next(head);
      if next_head == tail {
        return -1;
      }
      ghost var before := data[..];
      UnreadAfterPut(head, tail, data[..], c);
      data[head] := c;
      assert data[..] == before[head := c];
      head := next_head;
      return 0;
    }

    /** `ring_buffer_get`: -1 exactly when nothing waits, otherwise the oldest byte. */
    method Get(c0: bv8) returns (result: int, c: bv8)
      requires Valid()
      modifies this
      ensures Valid()
      ensures result == if old(Contents()) == [] then -1 else 0
      ensures result == 0 ==> [c] + Contents() == old(Contents())
      ensures result == -1 ==> c == c0 && Contents() == old(Contents())
      ensures head == old(head)
    {
      hide Unread, Next, Level;
      Unequal(head, tail);
      c := c0;
      if head == tail {
        return -1, c;
      }
      UnreadAfterGet(head, tail, data[..]);
      c := data[tail];
      tail := Next(tail);
      return 0, c;
    }
  }
}
