/** Core 0 of dispatcher/dispatcher.c: the keyboard task and the echo task, alternating
    through the scheduler and joined by the ring buffer. */
module Dispatcher {
  import opened RingBuffer
  import opened Scheduler

  datatype Option<T> = None | Some(value: T)

  datatype Key = KEY_NONE | KEY_CTRL_C | KEY_ENTER

  /** `uart_key_event`. */
  function KeyEvent(byte: bv8): Key {
    if byte == 0x03 then KEY_CTRL_C
    else if byte == 0x0d || byte == 0x0a then KEY_ENTER
    else KEY_NONE
  }

  /** What `uart_puts` sends: a carriage return before each line feed. */
  function Puts(text: seq<bv8>): seq<bv8> {
    if text == [] then []
    else (if text[0] == 0x0a then [0x0d, 0x0a] else [text[0]]) + Puts(text[1..])
  }

  const CRLF: seq<bv8> := [0x0d, 0x0a]

  /** The bytes of a string literal; every character here is ASCII. */
  function Ascii(text: string): (bytes: seq<bv8>)
    ensures |bytes| == |text|
  {
    seq(|text|, i requires 0 <= i < |text| => if text[i] < 128 as char then text[i] as bv8 else 0)
  }

  const HALT_TEXT := Ascii("\r\n[ERROR] Keyboard locked. System halted.\r\n")

  /** What one byte puts on the screen. */
  function Echo(byte: bv8): seq<bv8> {
    match KeyEvent(byte)
    case KEY_CTRL_C => Puts(HALT_TEXT)
    case KEY_ENTER => Puts(CRLF)
    case KEY_NONE => [byte]
  }

  function EchoAll(bytes: seq<bv8>): seq<bv8> {
    if bytes == [] then [] else EchoAll(bytes[..|bytes| - 1]) + Echo(bytes[|bytes| - 1])
  }

  predicate Plain(b: bv8) {
    b != 0x03 && b != 0x0d && b != 0x0a
  }

  /** Bytes other than Ctrl+C, carriage return and line feed come back as they are. */
  lemma {:induction false} PlainEcho(bytes: seq<bv8>)
    requires forall i :: 0 <= i < |bytes| ==> Plain(bytes[i])
    ensures EchoAll(bytes) == bytes
  {
    if bytes != [] {
      PlainEcho(bytes[..|bytes| - 1]);
      assert Plain(bytes[|bytes| - 1]);
    }
  }

  /** Enter, as either byte, prints two carriage returns and a line feed. */
  lemma EnterEcho()
    ensures Echo(0x0d) == Echo(0x0a) == [0x0d, 0x0d, 0x0a]
  {
    assert CRLF[1..] == [0x0a] && CRLF[1..][1..] == [];
    assert Puts([0x0a]) == [0x0d, 0x0a] + Puts([]);
  }

  // ---- The loops, one turn at a time ----

  /** The queue after an arrived byte, and whether it was stored. */
  function Store(queue: seq<bv8>, arrived: Option<bv8>): (seq<bv8>, bool) {
    if arrived.Some? && |queue| < CAPACITY then (queue + [arrived.value], true) else (queue, false)
  }

  /** What taking a byte does: the queue left, the output, and whether the task halts. */
  function Consume(queue: seq<bv8>): (seq<bv8>, seq<bv8>, bool) {
    if queue == [] then (queue, [], false) else (queue[1..], Echo(queue[0]), queue[0] == 0x03)
  }

  /** The body of uart_rx_task's loop, up to its yield. `arrived` is what the UART holds. */
  method UartRxTurn(ring: Ring, arrived: Option<bv8>) returns (stored: bool)
    requires ring.Valid()
    modifies ring, ring.data
    ensures ring.Valid()
    ensures (ring.Contents(), stored) == Store(old(ring.Contents()), arrived)
  {
    stored := false;
    if arrived.Some? {
      var result := ring.Put(arrived.value);
      stored := result == 0;
    }
  }

  /** The body of ring_consumer_task's loop, up to its yield or the halt. */
  method ConsumerTurn(ring: Ring) returns (output: seq<bv8>, halted: bool)
    requires ring.Valid()
    modifies ring
    ensures ring.Valid()
    ensures (ring.Contents(), output, halted) == Consume(old(ring.Contents()))
  {
    hide Puts;
    output, halted := [], false;
    ghost var before := ring.Contents();
    var result, byte := ring.Get(0);
    if result == 0 {
      assert before[0] == byte && before[1..] == ring.Contents();
      match KeyEvent(byte) {
        case KEY_CTRL_C =>
          output := Puts(HALT_TEXT);
          halted := true;
        case KEY_ENTER =>
          output := Puts(CRLF);
        case KEY_NONE =>
          output := [byte];
      }
    }
  }

  // ---- The two tasks over the scheduler ----

  /** `received` has the bytes read from the UART and stored, `lost` those the full
      ring refused, `consumed` those taken from the ring. */
  datatype World = World(
    sched: Sched, queue: seq<bv8>, output: seq<bv8>, halted: bool,
    received: seq<bv8>, lost: seq<bv8>, consumed: seq<bv8>)

  const UART_RX := 0
  const CONSUMER := 1

  /** One turn of the current task: a byte may be waiting at the UART. */
  function Turn(w: World, arrived: Option<bv8>): (t: World)
    requires w.sched.current < |w.sched.tasks|
    ensures t.sched.current < |t.sched.tasks|
  {
    if w.halted then w
    else if w.sched.current == UART_RX then
      var (queue, stored) := Store(w.queue, arrived);
      var v := w.(sched := Yield(w.sched), queue := queue);
      if stored then v.(received := w.received + [arrived.value])
      else if arrived.Some? then v.(lost := w.lost + [arrived.value])
      else v
    else
      var (queue, output, halted) := Consume(w.queue);
      var v := w.(queue := queue, output := w.output + output, halted := halted,
                  consumed := w.consumed + w.queue[..|w.queue| - |queue|]);
      if halted then v else v.(sched := Yield(w.sched))
  }

  predicate Begins(w: World) {
    && Started(w.sched) && |w.sched.tasks| == 2
    && |w.queue| <= CAPACITY && w.output == [] && !w.halted
    && w.received == [] && w.lost == [] && w.consumed == []
  }

  ghost predicate Inv(start: seq<bv8>, w: World) {
    && OthersReady(w.sched) && |w.sched.tasks| == 2
    && start + w.received == w.consumed + w.queue
    && w.output == EchoAll(w.consumed)
    && |w.queue| <= |start| + (if w.sched.current == CONSUMER then 1 else 0)
    && (|start| < CAPACITY ==> w.lost == [])
    && (forall i :: 0 <= i < |w.consumed| ==>
          (w.consumed[i] == 0x03 <==> w.halted && i == |w.consumed| - 1))
    && (w.halted ==> w.consumed != [] && w.sched.current == CONSUMER)
  }

  function Play(w: World, arrivals: seq<Option<bv8>>): (v: World)
    requires w.sched.current < |w.sched.tasks|
    ensures v.sched.current < |v.sched.tasks|
  {
    if arrivals == [] then w else Turn(Play(w, arrivals[..|arrivals| - 1]), arrivals[|arrivals| - 1])
  }

  lemma EchoMore(bytes: seq<bv8>, byte: bv8)
    ensures EchoAll(bytes + [byte]) == EchoAll(bytes) + Echo(byte)
  {
    hide Echo;
    assert (bytes + [byte])[..|bytes|] == bytes;
  }

  lemma UartTurnKeepsInv(start: seq<bv8>, w: World, arrived: Option<bv8>)
    requires Inv(start, w) && !w.halted && w.sched.current == UART_RX
    ensures Inv(start, Turn(w, arrived))
  {
    hide EchoAll, Yield;
    StepKeepsOthersReady(w.sched, DoYield);
    if arrived.Some? {
      var c := arrived.value;
      assert start + (w.received + [c]) == (start + w.received) + [c];
      assert w.consumed + (w.queue + [c]) == (w.consumed + w.queue) + [c];
    }
  }

  lemma ConsumerTurnKeepsInv(start: seq<bv8>, w: World, arrived: Option<bv8>)
    requires Inv(start, w) && !w.halted && w.sched.current == CONSUMER
    ensures Inv(start, Turn(w, arrived))
  {
    hide Echo, EchoAll, Yield;
    StepKeepsOthersReady(w.sched, DoYield);
    if w.queue != [] {
      EchoMore(w.consumed, w.queue[0]);
      assert w.queue[..1] == [w.queue[0]];
      assert w.consumed + w.queue == w.consumed + [w.queue[0]] + w.queue[1..];
    } else {
      assert w.consumed + w.queue[..0] == w.consumed && w.output + [] == w.output;
    }
  }

  lemma TurnKeepsInv(start: seq<bv8>, w: World, arrived: Option<bv8>)
    requires Inv(start, w)
    ensures Inv(start, Turn(w, arrived))
  {
    hide EchoAll, Yield;
    if !w.halted {
      if w.sched.current == UART_RX {
        UartTurnKeepsInv(start, w, arrived);
      } else {
        ConsumerTurnKeepsInv(start, w, arrived);
      }
    }
  }

  lemma {:induction false} RunKeepsInv(w: World, arrivals: seq<Option<bv8>>)
    requires Begins(w)
    ensures Inv(w.queue, Play(w, arrivals))
  {
    hide Turn, Inv, Yield;
    if arrivals == [] {
      BeginsInv(w);
    } else {
      RunKeepsInv(w, arrivals[..|arrivals| - 1]);
      TurnKeepsInv(w.queue, Play(w, arrivals[..|arrivals| - 1]), arrivals[|arrivals| - 1]);
    }
  }

  lemma BeginsInv(w: World)
    requires Begins(w)
    ensures Inv(w.queue, w)
  {
    assert w.queue + [] == [] + w.queue;
  }

  /** With the two tasks alternating, the ring never holds more than one byte above
      its starting level; from any level but full nothing is ever refused; and what
      is on the screen is the echo of a prefix of the waiting and received bytes,
      which up to the first Ctrl+C lacks at most what the ring still holds. */
  lemma EchoFollowsInput(w: World, arrivals: seq<Option<bv8>>)
    requires Begins(w)
    ensures var v := Play(w, arrivals);
            && |v.queue| <= |w.queue| + 1
            && (|w.queue| < CAPACITY ==> v.lost == [])
            && v.consumed <= w.queue + v.received
            && v.output == EchoAll(v.consumed)
            && |v.consumed| + |v.queue| == |w.queue| + |v.received|
            && (v.halted <==> 0x03 in v.consumed)
            && (v.halted ==> v.consumed[|v.consumed| - 1] == 0x03 && 0x03 !in v.consumed[..|v.consumed| - 1])
  {
    hide Play, EchoAll, OthersReady;
    RunKeepsInv(w, arrivals);
    var v := Play(w, arrivals);
    assert v.consumed == (v.consumed + v.queue)[..|v.consumed|];
  }

  /** Whatever arrives, nothing is refused, exactly when the ring does not start full. */
  lemma NothingRefusedIff(w: World)
    requires Begins(w)
    ensures (forall arrivals :: Play(w, arrivals).lost == []) <==> |w.queue| < CAPACITY
  {
    hide Yield, EchoAll;
    forall arrivals | |w.queue| < CAPACITY
      ensures Play(w, arrivals).lost == []
    {
      RunKeepsInv(w, arrivals);
    }
    var one: seq<Option<bv8>> := [Some(0)];
    assert one[..0] == [];
    assert Play(w, one) == Turn(w, Some(0));
    if |w.queue| == CAPACITY {
      assert Play(w, one).lost == [0];
    }
  }

  // ---- The whole of it, from an empty ring ----

  /** What waits at the UART on the keyboard task's turns, which are every other one. */
  function Typed(arrivals: seq<Option<bv8>>): seq<bv8> {
    if arrivals == [] then []
    else
      var n := |arrivals| - 1;
      Typed(arrivals[..n]) + if n % 2 == 0 && arrivals[n].Some? then [arrivals[n].value] else []
  }

  /** The bytes up to the first Ctrl+C, with it. */
  function UpToCtrlC(bytes: seq<bv8>): seq<bv8> {
    if bytes == [] then []
    else if bytes[0] == 0x03 then [0x03]
    else [bytes[0]] + UpToCtrlC(bytes[1..])
  }

  lemma {:induction false} NoCtrlC(bytes: seq<bv8>)
    requires 0x03 !in bytes
    ensures UpToCtrlC(bytes) == bytes
  {
    if bytes != [] {
      assert forall b :: b in bytes[1..] ==> b in bytes;
      NoCtrlC(bytes[1..]);
    }
  }

  lemma {:induction false} FirstCtrlC(before: seq<bv8>, after: seq<bv8>)
    requires 0x03 !in before
    ensures UpToCtrlC(before + [0x03] + after) == before + [0x03]
  {
    var all := before + [0x03] + after;
    if before != [] {
      assert forall b :: b in before[1..] ==> b in before;
      assert all[0] == before[0] && before[0] in before;
      assert all[1..] == before[1..] + [0x03] + after;
      FirstCtrlC(before[1..], after);
    }
  }

  /** The turns alternate until the halt, and each waiting byte is read. */
  lemma {:induction false} TurnsAlternate(w: World, arrivals: seq<Option<bv8>>)
    requires Begins(w) && |w.queue| < CAPACITY
    ensures var v := Play(w, arrivals);
            && v.received <= Typed(arrivals)
            && (!v.halted ==> v.sched.current == |arrivals| % 2 && v.received == Typed(arrivals))
  {
    hide Yield, EchoAll, Consume;
    if arrivals != [] {
      var n := |arrivals| - 1;
      var u := Play(w, arrivals[..n]);
      TurnsAlternate(w, arrivals[..n]);
      RunKeepsInv(w, arrivals[..n]);
      if !u.halted {
        StepKeepsOthersReady(u.sched, DoYield);
        OneTurnReads(w.queue, u, arrivals[n]);
      }
    }
  }

  lemma OneTurnReads(start: seq<bv8>, w: World, arrived: Option<bv8>)
    requires Inv(start, w) && !w.halted && |start| < CAPACITY
    ensures var v := Turn(w, arrived);
            v.received == w.received + if w.sched.current == UART_RX && arrived.Some? then [arrived.value] else []
    ensures var v := Turn(w, arrived);
            !v.halted ==> v.sched == Yield(w.sched)
  {
    hide Yield, EchoAll;
  }

  /** From an empty ring, after any number of full rounds: the screen shows the echo of
      exactly what was typed up to the first Ctrl+C, no byte missing, added or out of
      order, and the system is halted exactly when Ctrl+C was typed. */
  lemma InputIsEchoed(w: World, arrivals: seq<Option<bv8>>)
    requires Begins(w) && w.queue == [] && |arrivals| % 2 == 0
    ensures var v := Play(w, arrivals);
            && v.output == EchoAll(UpToCtrlC(Typed(arrivals)))
            && (v.halted <==> 0x03 in Typed(arrivals))
  {
    hide Play, EchoAll, OthersReady, UpToCtrlC, Typed;
    RunKeepsInv(w, arrivals);
    TurnsAlternate(w, arrivals);
    var v, typed := Play(w, arrivals), Typed(arrivals);
    assert v.consumed == (v.consumed + v.queue)[..|v.consumed|] == ([] + v.received)[..|v.consumed|];
    if v.halted {
      var k := |v.consumed| - 1;
      assert v.consumed[k] == 0x03;
      assert typed == v.consumed[..k] + [0x03] + typed[k + 1..];
      FirstCtrlC(v.consumed[..k], typed[k + 1..]);
      assert v.consumed == v.consumed[..k] + [0x03];
    } else {
      assert v.consumed == typed;
      NoCtrlC(typed);
    }
  }
}
