/** The ring buffer shared by one producer and one consumer, one load or store at a
    time, for every interleaving of the two. Steps are sequentially consistent. */
module RingProtocol {
  import opened RingBuffer

  /** Where the producer is in ring_buffer_put. */
  datatype Producer =
    | NoPut
    | PutLoadHead(c: bv8)
    | PutLoadTail(c: bv8, next: nat)
    | PutLoadIndex(c: bv8, next: nat)
    | PutStoreData(c: bv8, next: nat, index: nat)
    | PutStoreHead(c: bv8, next: nat)

  /** Where the consumer is in ring_buffer_get. */
  datatype Consumer =
    | NoGet
    | GetLoadHead
    | GetLoadTail(head: nat)
    | GetLoadIndex
    | GetLoadData(index: nat)
    | GetLoadTailAgain(c: bv8)
    | GetStoreTail(c: bv8, next: nat)

  /** A call, at the moment it takes effect. */
  datatype Event =
    | PutDone(c: bv8)
    | PutRefused(c: bv8)
    | GetDone(c: bv8)
    | GetRefused

  /** `put`, `got`, `log` and `answers` are history; no step looks at them.
      `answers` has the results of the consumer's calls, as they return. */
  datatype State = State(
    head: nat, tail: nat, data: seq<bv8>,
    producer: Producer, consumer: Consumer,
    put: seq<bv8>, got: seq<bv8>, log: seq<Event>, answers: seq<Event>)

  datatype Move = StartPut(c: bv8) | ProducerStep | StartGet | ConsumerStep

  function StoreData(s: State, index: nat, c: bv8): State
    requires index < |s.data|
  {
    s.(data := s.data[index := c])
  }

  /** Event `e` takes effect. */
  function Took(s: State, e: Event): State {
    s.(log := s.log + [e])
  }

  /** The consumer's call returns. */
  function Answered(s: State, e: Event): State {
    s.(answers := s.answers + [e])
  }

  function ProducerMoves(s: State): State
    requires |s.data| == SIZE
  {
    match s.producer
    case NoPut => s
    case PutLoadHead(c) => s.(producer := PutLoadTail(c, Next(s.head)))
    case PutLoadTail(c, next) =>
      if next == s.tail then Took(s, PutRefused(c)).(producer := NoPut)
      else s.(producer := PutLoadIndex(c, next))
    case PutLoadIndex(c, next) => s.(producer := PutStoreData(c, next, s.head))
    case PutStoreData(c, next, index) =>
      if index < SIZE then StoreData(s, index, c).(producer := PutStoreHead(c, next)) else s
    case PutStoreHead(c, next) =>
      Took(s, PutDone(c)).(head := next, producer := NoPut, put := s.put + [c])
  }

  function ConsumerMoves(s: State): State
    requires |s.data| == SIZE
  {
    match s.consumer
    case NoGet => s
    case GetLoadHead =>
      // An empty buffer is decided here: only the consumer moves the tail.
      (if s.head == s.tail then Took(s, GetRefused) else s).(consumer := GetLoadTail(s.head))
    case GetLoadTail(head) =>
      if head == s.tail then Answered(s, GetRefused).(consumer := NoGet) else s.(consumer := GetLoadIndex)
    case GetLoadIndex => s.(consumer := GetLoadData(s.tail))
    case GetLoadData(index) => if index < SIZE then s.(consumer := GetLoadTailAgain(s.data[index])) else s
    case GetLoadTailAgain(c) => s.(consumer := GetStoreTail(c, Next(s.tail)))
    case GetStoreTail(c, next) =>
      Answered(Took(s, GetDone(c)), GetDone(c)).(tail := next, consumer := NoGet, got := s.got + [c])
  }

  function Step(s: State, m: Move): State
    requires |s.data| == SIZE
  {
    match m
    case StartPut(c) => if s.producer.NoPut? then s.(producer := PutLoadHead(c)) else s
    case ProducerStep => ProducerMoves(s)
    case StartGet => if s.consumer.NoGet? then s.(consumer := GetLoadHead) else s
    case ConsumerStep => ConsumerMoves(s)
  }

  /** After ring_buffer_init, with whatever the slots contained. */
  function Empty(data: seq<bv8>): State {
    State(0, 0, data, NoPut, NoGet, [], [], [], [])
  }

  function Exec(data: seq<bv8>, moves: seq<Move>): (s: State)
    requires |data| == SIZE
    ensures |s.data| == SIZE
  {
    if moves == [] then Empty(data) else Step(Exec(data, moves[..|moves| - 1]), moves[|moves| - 1])
  }

  // ---- The bounded FIFO ----

  function Advance(q: seq<bv8>, e: Event): seq<bv8> {
    match e
    case PutDone(c) => q + [c]
    case GetDone(_) => if q == [] then [] else q[1..]
    case _ => q
  }

  function Queue(log: seq<Event>): seq<bv8> {
    if log == [] then [] else Advance(Queue(log[..|log| - 1]), log[|log| - 1])
  }

  /** What a FIFO of 255 bytes may do next. */
  predicate Legal(q: seq<bv8>, e: Event) {
    match e
    case PutDone(_) => |q| < CAPACITY
    case PutRefused(_) => |q| == CAPACITY
    case GetDone(c) => q != [] && q[0] == c
    case GetRefused => q == []
  }

  ghost predicate AllLegal(log: seq<Event>) {
    forall i :: 0 <= i < |log| ==> Legal(Queue(log[..i]), log[i])
  }

  /** The gets in a log. */
  function Gets(log: seq<Event>): seq<Event> {
    if log == [] then []
    else
      var e := log[|log| - 1];
      Gets(log[..|log| - 1]) + if e.GetDone? || e.GetRefused? then [e] else []
  }

  /** The get that has taken effect but not yet returned: a refusal. */
  function Returning(s: State): seq<Event> {
    if s.consumer.GetLoadTail? && s.consumer.head == s.tail then [GetRefused] else []
  }

  // ---- The invariant ----

  /** Where the n-th byte ever put is stored. */
  function Slot(n: nat): (k: nat)
    ensures k < SIZE
  {
    n % SIZE
  }

  ghost predicate SharedInv(s: State) {
    && |s.data| == SIZE
    && s.head == Slot(|s.put|) && s.tail == Slot(|s.got|)
    && |s.got| <= |s.put| <= |s.got| + CAPACITY
    && s.got == s.put[..|s.got|]
    && forall i :: |s.got| <= i < |s.put| ==> s.data[Slot(i)] == s.put[i]
  }

  ghost predicate ProducerInv(s: State)
    requires |s.data| == SIZE
  {
    match s.producer
    case PutLoadTail(_, next) => next == Next(s.head)
    case PutLoadIndex(_, next) => next == Next(s.head) && |s.put| < |s.got| + CAPACITY
    case PutStoreData(_, next, index) =>
      next == Next(s.head) && |s.put| < |s.got| + CAPACITY && index == s.head
    case PutStoreHead(c, next) =>
      next == Next(s.head) && |s.put| < |s.got| + CAPACITY && s.head < SIZE && s.data[s.head] == c
    case _ => true
  }

  ghost predicate ConsumerInv(s: State) {
    match s.consumer
    case GetLoadTail(head) => head != s.tail ==> |s.got| < |s.put|
    case GetLoadIndex => |s.got| < |s.put|
    case GetLoadData(index) => |s.got| < |s.put| && index == s.tail
    case GetLoadTailAgain(c) => |s.got| < |s.put| && c == s.put[|s.got|]
    case GetStoreTail(c, next) => |s.got| < |s.put| && c == s.put[|s.got|] && next == Next(s.tail)
    case _ => true
  }

  ghost predicate FifoInv(s: State) {
    && AllLegal(s.log) && |s.got| <= |s.put| && Queue(s.log) == s.put[|s.got|..]
    && Gets(s.log) == s.answers + Returning(s)
  }

  ghost predicate Inv(s: State) {
    SharedInv(s) && ProducerInv(s) && ConsumerInv(s) && FifoInv(s)
  }

  /** Within the 255 positions after the oldest unread one, slots are distinct. */
  lemma DistinctSlots(i: nat, j: nat)
    requires i < j <= i + CAPACITY
    ensures Slot(i) != Slot(j)
  {
  }

  lemma NextSlot(n: nat)
    ensures Next(Slot(n)) == Slot(n + 1)
  {
  }

  /** The two index comparisons decide empty and full. */
  lemma Meeting(put: nat, got: nat)
    requires got <= put <= got + CAPACITY
    ensures Slot(put) == Slot(got) <==> put == got
    ensures Next(Slot(put)) == Slot(got) <==> put == got + CAPACITY
  {
  }

  lemma LogMore(log: seq<Event>, e: Event)
    requires AllLegal(log) && Legal(Queue(log), e)
    ensures AllLegal(log + [e])
    ensures Queue(log + [e]) == Advance(Queue(log), e)
    ensures Gets(log + [e]) == Gets(log) + if e.GetDone? || e.GetRefused? then [e] else []
  {
    var more := log + [e];
    assert more[..|log|] == log;
    forall i | 0 <= i < |more|
      ensures Legal(Queue(more[..i]), more[i])
    {
      if i < |log| {
        assert more[..i] == log[..i];
      }
    }
  }

  lemma StoreKeepsInv(s: State, c: bv8, next: nat, index: nat)
    requires Inv(s) && s.producer == PutStoreData(c, next, index)
    ensures Inv(ProducerMoves(s))
  {
    hide Queue, Gets, AllLegal, Slot, Next;
    var t := ProducerMoves(s);
    forall i | |s.got| <= i < |s.put|
      ensures t.data[Slot(i)] == t.put[i]
    {
      DistinctSlots(i, |s.put|);
    }
    if s.consumer.GetLoadData? {
      DistinctSlots(|s.got|, |s.put|);
    }
  }

  lemma PutKeepsInv(s: State, c: bv8, next: nat)
    requires Inv(s) && s.producer == PutStoreHead(c, next)
    ensures Inv(ProducerMoves(s))
  {
    hide Queue, Gets, AllLegal, Slot, Next;
    var t := ProducerMoves(s);
    NextSlot(|s.put|);
    assert SharedInv(t);
    assert FifoInv(t) by {
      LogMore(s.log, PutDone(c));
      assert t.put[|t.got|..] == s.put[|s.got|..] + [c];
    }
  }

  lemma ProducerKeepsInv(s: State)
    requires Inv(s)
    ensures Inv(ProducerMoves(s))
  {
    hide Queue, Gets, AllLegal, Slot, Next;
    match s.producer
    case PutLoadTail(c, next) =>
      Meeting(|s.put|, |s.got|);
      if next == s.tail {
        LogMore(s.log, PutRefused(c));
      }
    case PutStoreData(c, next, index) => StoreKeepsInv(s, c, next, index);
    case PutStoreHead(c, next) => PutKeepsInv(s, c, next);
    case _ =>
  }

  lemma GetKeepsInv(s: State, c: bv8, next: nat)
    requires Inv(s) && s.consumer == GetStoreTail(c, next)
    ensures Inv(ConsumerMoves(s))
  {
    hide Queue, Gets, AllLegal, Slot, Next;
    var t := ConsumerMoves(s);
    NextSlot(|s.got|);
    LogMore(s.log, GetDone(c));
    assert t.put[|t.got|..] == s.put[|s.got|..][1..];
  }

  lemma ConsumerKeepsInv(s: State)
    requires Inv(s)
    ensures Inv(ConsumerMoves(s))
  {
    hide Queue, Gets, AllLegal, Slot, Next;
    match s.consumer
    case GetLoadHead =>
      Meeting(|s.put|, |s.got|);
      if s.head == s.tail {
        LogMore(s.log, GetRefused);
      }
    case GetStoreTail(c, next) => GetKeepsInv(s, c, next);
    case _ =>
  }

  lemma StepKeepsInv(s: State, m: Move)
    requires Inv(s)
    ensures Inv(Step(s, m))
  {
    hide ProducerMoves, ConsumerMoves, Queue, Gets, AllLegal, Slot, Next;
    match m
    case ProducerStep => ProducerKeepsInv(s);
    case ConsumerStep => ConsumerKeepsInv(s);
    case _ =>
  }

  lemma {:induction false} RunKeepsInv(data: seq<bv8>, moves: seq<Move>)
    requires |data| == SIZE
    ensures Inv(Exec(data, moves))
  {
    hide Step, Inv;
    if moves == [] {
      EmptyInv(data);
    } else {
      RunKeepsInv(data, moves[..|moves| - 1]);
      StepKeepsInv(Exec(data, moves[..|moves| - 1]), moves[|moves| - 1]);
    }
  }

  lemma EmptyInv(data: seq<bv8>)
    requires |data| == SIZE
    ensures Inv(Empty(data))
  {
  }

  /** In every interleaving: the bytes got are a prefix of the bytes put, both
      indices stay inside the array, at most 255 bytes wait, and every unread byte
      is still in its slot. */
  lemma BytesArriveInOrder(data: seq<bv8>, moves: seq<Move>)
    requires |data| == SIZE
    ensures var s := Exec(data, moves);
            && s.got <= s.put
            && s.head < 256 && s.tail < 256
            && |s.put| - |s.got| <= 255
            && Unread(s.head, s.tail, s.data) == s.put[|s.got|..]
  {
    hide Exec, FifoInv, Slot, Level, At;
    RunKeepsInv(data, moves);
    var s := Exec(data, moves);
    Occupancy(|s.put|, |s.got|);
    var q := Unread(s.head, s.tail, s.data);
    forall i | 0 <= i < |q|
      ensures q[i] == s.put[|s.got| + i]
    {
      SlotOf(|s.got|, i);
    }
    assert q == s.put[|s.got|..];
  }

  lemma Occupancy(put: nat, got: nat)
    requires got <= put <= got + CAPACITY
    ensures Level(Slot(put), Slot(got)) == put - got
  {
  }

  lemma SlotOf(got: nat, i: nat)
    ensures At(Slot(got), i) == Slot(got + i)
  {
  }

  /** Every interleaving refines a FIFO of capacity 255 whose calls happen at once:
      a put is refused only when 255 bytes wait, a get only when none does, and the
      consumer is answered what took effect. */
  lemma RefinesFifo(data: seq<bv8>, moves: seq<Move>)
    requires |data| == SIZE
    ensures var s := Exec(data, moves);
            && AllLegal(s.log)
            && s.head < SIZE && s.tail < SIZE
            && Queue(s.log) == Unread(s.head, s.tail, s.data)
            && Gets(s.log) == s.answers + Returning(s)
  {
    hide Exec, Gets, AllLegal, Queue, Unread, Slot;
    RunKeepsInv(data, moves);
    BytesArriveInOrder(data, moves);
  }

  // ---- The calls are those that were made, and they finish ----

  /** The bytes of the puts that took effect or were refused. */
  function Settled(log: seq<Event>): seq<bv8> {
    if log == [] then []
    else
      var e := log[|log| - 1];
      Settled(log[..|log| - 1]) + if e.PutDone? || e.PutRefused? then [e.c] else []
  }

  /** The byte of the put under way. */
  function InHand(p: Producer): seq<bv8> {
    if p.NoPut? then [] else [p.c]
  }

  /** The byte with which a move calls ring_buffer_put. */
  function Offers(s: State, m: Move): seq<bv8> {
    if m.StartPut? && s.producer.NoPut? then [m.c] else []
  }

  function Offered(data: seq<bv8>, moves: seq<Move>): seq<bv8>
    requires |data| == SIZE
  {
    if moves == [] then []
    else
      var n := |moves| - 1;
      Offered(data, moves[..n]) + Offers(Exec(data, moves[..n]), moves[n])
  }

  /** How many times ring_buffer_get was called. */
  function GetCalls(data: seq<bv8>, moves: seq<Move>): nat
    requires |data| == SIZE
  {
    if moves == [] then 0
    else
      var n := |moves| - 1;
      GetCalls(data, moves[..n]) + if moves[n].StartGet? && Exec(data, moves[..n]).consumer.NoGet? then 1 else 0
  }

  lemma SettledMore(log: seq<Event>, e: Event)
    ensures Settled(log + [e]) == Settled(log) + if e.PutDone? || e.PutRefused? then [e.c] else []
  {
    assert (log + [e])[..|log|] == log;
  }

  lemma StepKeepsPuts(s: State, m: Move)
    requires |s.data| == SIZE
    ensures var t := Step(s, m);
            Settled(t.log) + InHand(t.producer) == Settled(s.log) + InHand(s.producer) + Offers(s, m)
  {
    hide Settled;
    forall e
      ensures Settled(s.log + [e]) == Settled(s.log) + if e.PutDone? || e.PutRefused? then [e.c] else []
    {
      SettledMore(s.log, e);
    }
  }

  lemma StepKeepsGets(s: State, m: Move)
    requires |s.data| == SIZE
    ensures var t := Step(s, m);
            |t.answers| + (if t.consumer.NoGet? then 0 else 1)
            == |s.answers| + (if s.consumer.NoGet? && !m.StartGet? then 0 else 1)
  {
  }

  /** In every interleaving the bytes that callers gave to put are, in order, those
      that were queued or refused and then the one in hand; and the calls of get are
      those that were answered and the one under way. */
  lemma {:induction false} CallsAreThoseMade(data: seq<bv8>, moves: seq<Move>)
    requires |data| == SIZE
    ensures var s := Exec(data, moves);
            && Offered(data, moves) == Settled(s.log) + InHand(s.producer)
            && GetCalls(data, moves) == |s.answers| + if s.consumer.NoGet? then 0 else 1
  {
    hide Settled, InHand, Offers, Step;
    if moves == [] {
      assert Settled([]) + InHand(NoPut) == [] by { NothingOffered(); }
    } else {
      var n := |moves| - 1;
      CallsAreThoseMade(data, moves[..n]);
      StepKeepsPuts(Exec(data, moves[..n]), moves[n]);
      StepKeepsGets(Exec(data, moves[..n]), moves[n]);
    }
  }

  lemma NothingOffered()
    ensures Settled([]) + InHand(NoPut) == []
  {
  }

  /** How many steps a put still takes, at most. */
  function PutRank(p: Producer): nat {
    match p
    case NoPut => 0
    case PutStoreHead(_, _) => 1
    case PutStoreData(_, _, _) => 2
    case PutLoadIndex(_, _) => 3
    case PutLoadTail(_, _) => 4
    case PutLoadHead(_) => 5
  }

  function GetRank(c: Consumer): nat {
    match c
    case NoGet => 0
    case GetStoreTail(_, _) => 1
    case GetLoadTailAgain(_) => 2
    case GetLoadData(_) => 3
    case GetLoadIndex => 4
    case GetLoadTail(_) => 5
    case GetLoadHead => 6
  }

  /** Neither side ever waits for the other: in every reachable state, whatever the
      other side is doing, a step of a side brings its call nearer to its return, and
      a step of the other side does not delay it. */
  lemma CallsFinish(data: seq<bv8>, moves: seq<Move>)
    requires |data| == SIZE
    ensures var s := Exec(data, moves);
            && (!s.producer.NoPut? ==> PutRank(ProducerMoves(s).producer) < PutRank(s.producer))
            && (!s.consumer.NoGet? ==> GetRank(ConsumerMoves(s).consumer) < GetRank(s.consumer))
            && ProducerMoves(s).consumer == s.consumer && ConsumerMoves(s).producer == s.producer
  {
    hide Exec, Queue, Gets, AllLegal, Next;
    RunKeepsInv(data, moves);
  }
}
