/** include/interrupts/irq.c: registering handlers, and dispatching through the table. */
module Irq {
  import opened Bytes

  const IRQ_MAX_HANDLERS: nat := 64
  const SPURIOUS := 1023
  const EXC_SPX_IRQ := 0x12
  const EXC_A64_IRQ := 0x22

  /** An entry of the table: a null pointer or a function. */
  datatype Handler = Empty | Registered(id: nat)

  /** A call of irq_register_handler. */
  datatype Registration = Registration(irq_id: u32, handler: Handler)

  /** Accesses to the interrupt controller, and handler calls, in order. */
  datatype Event =
    | Acknowledge(iar: u32)                  // read of GICC_IAR
    | Call(handler: nat, irq_id: nat)
    | EndOfInterrupt(iar: u32)               // write of GICC_EOIR
    | EnableWrite(register: nat, bit: nat)   // GICD_ISENABLER(register) = 1 << bit
    | HaltForever

  function IntId(iar: u32): nat {
    iar % 1024
  }

  predicate IsIrq(exc_id: nat) {
    exc_id == EXC_SPX_IRQ || exc_id == EXC_A64_IRQ
  }

  /** The core has stopped in the handler's default branch. */
  predicate Halted(trace: seq<Event>) {
    trace != [] && trace[|trace| - 1] == HaltForever
  }

  /** The table after some registrations. */
  function Tabled(table: seq<Handler>, made: seq<Registration>): (t: seq<Handler>)
    ensures |t| == |table|
  {
    if made == [] then table
    else
      var r := made[|made| - 1];
      var before := Tabled(table, made[..|made| - 1]);
      if r.irq_id < IRQ_MAX_HANDLERS && r.irq_id < |table| then before[r.irq_id := r.handler] else before
  }

  /** What they write to the distributor. */
  function Writes(made: seq<Registration>): (w: seq<Event>)
    ensures forall e :: e in w ==> e.EnableWrite?
  {
    if made == [] then []
    else
      var r := made[|made| - 1];
      Writes(made[..|made| - 1]) +
      if r.irq_id < IRQ_MAX_HANDLERS then [EnableWrite(r.irq_id / 32, r.irq_id % 32)] else []
  }

  /** A registration sets one enable bit, the one of its interrupt: 32 interrupts to a
      register, whose bits are numbered from 0; and no bit when the id is out of range. */
  lemma EnablesOwnBit(irq_id: u32, handler: Handler)
    ensures var w := Writes([Registration(irq_id, handler)]);
            if irq_id < 64 then
              |w| == 1 && w[0].EnableWrite? && w[0].bit < 32 && 32 * w[0].register + w[0].bit == irq_id
            else w == []
  {
    var made := [Registration(irq_id, handler)];
    assert made[..0] == [];
  }

  /** The interrupt number is the low ten bits of what the acknowledge register gives,
      whatever stands above them; 1023 says that there was no interrupt. */
  lemma IntIdIsLowBits(cpu: nat, id: nat)
    requires id < 1024 && 1024 * cpu + id < 0x1_0000_0000
    ensures IntId(1024 * cpu + id) == id && (IntId(1024 * cpu + id) == SPURIOUS <==> id == 1023)
  {
  }

  /** The vector table has four kinds of exception (synchronous, IRQ, FIQ, SError) in each
      group (SP0, SPx, lower level); vector.S numbers them 16 * group + kind + 1. The
      handled ones are the IRQs taken on SPx or from a lower level, and no other. */
  lemma IrqVectors(group: nat, kind: nat)
    requires group < 3 && kind < 4
    ensures IsIrq(16 * group + kind + 1) <==> kind == 1 && group != 0
  {
  }

  lemma OneMore(table: seq<Handler>, made: seq<Registration>, r: Registration)
    ensures Tabled(table, made + [r]) == Tabled(Tabled(table, made), [r])
    ensures Writes(made + [r]) == Writes(made) + Writes([r])
  {
    assert (made + [r])[..|made|] == made;
    assert [r][..0] == [];
  }

  class Controller {
    const irq_table: array<Handler>
    var trace: seq<Event>

    ghost predicate Valid()
      reads this
    {
      irq_table.Length == IRQ_MAX_HANDLERS
    }

    constructor ()
      ensures Valid() && trace == [] && fresh(irq_table)
      ensures irq_table[..] == EmptyTable()
    {
      irq_table := new Handler[IRQ_MAX_HANDLERS](_ => Empty);
      trace := [];
    }

    /** irq_register_handler. */
    method RegisterHandler(irq_id: u32, handler: Handler)
      requires Valid()
      modifies this, irq_table
      ensures irq_table[..] == Tabled(old(irq_table[..]), [Registration(irq_id, handler)])
      ensures trace == old(trace) + Writes([Registration(irq_id, handler)])
    {
      ghost var made := [Registration(irq_id, handler)];
      assert made[..0] == [];
      if irq_id >= IRQ_MAX_HANDLERS { return; }
      irq_table[irq_id] := handler;
      trace := trace + [EnableWrite(irq_id / 32, irq_id % 32)];
    }

    /** The called handler may itself register handlers: those in `made`. */
    method CallHandler(handler: nat, irq_id: nat, made: seq<Registration>)
      requires Valid()
      modifies this, irq_table
      ensures irq_table[..] == Tabled(old(irq_table[..]), made)
      ensures trace == old(trace) + ([Call(handler, irq_id)] + Writes(made))
    {
      ghost var table := irq_table[..];
      trace := trace + [Call(handler, irq_id)];
      ghost var called := trace;
      var i := 0;
      while i < |made|
        invariant 0 <= i <= |made|
        invariant irq_table[..] == Tabled(table, made[..i]) && trace == called + Writes(made[..i])
      {
        assert made[..i + 1] == made[..i] + [made[i]];
        OneMore(table, made[..i], made[i]);
        RegisterHandler(made[i].irq_id, made[i].handler);
        i := i + 1;
      }
      assert made[..i] == made;
    }

    /** common_trap_handler; `iar` is what a read of GICC_IAR gives, and `made` what a
        called handler registers. For anything but an IRQ the core halts. */
    method TrapHandler(exc_id: nat, iar: u32, made: seq<Registration>)
      requires Valid() && !Halted(trace)
      modifies this, irq_table
      ensures (irq_table[..], trace) == Act(old(irq_table[..]), old(trace), Exception(exc_id, iar, made))
    {
      hide Tabled, Writes;
      ghost var t0 := trace;
      if exc_id == EXC_SPX_IRQ || exc_id == EXC_A64_IRQ {
        trace := trace + [Acknowledge(iar)];
        var irq_id := iar % 1024;
        if irq_id == SPURIOUS { return; }
        ghost var mid := [];
        if irq_id < IRQ_MAX_HANDLERS && irq_table[irq_id].Registered? {
          mid := [Call(irq_table[irq_id].id, irq_id)] + Writes(made);
          CallHandler(irq_table[irq_id].id, irq_id, made);
        }
        trace := trace + [EndOfInterrupt(iar)];
        assert trace == t0 + ([Acknowledge(iar)] + mid + [EndOfInterrupt(iar)]);
      } else {
        trace := trace + [HaltForever];
      }
    }
  }

  // ---- Runs of registrations and exceptions ----

  datatype Input =
    | Register(r: Registration)
    | Exception(exc_id: nat, iar: u32, made: seq<Registration>)

  /** The handler the table has for an acknowledged interrupt. */
  function Lookup(table: seq<Handler>, iar: u32): Handler
    requires |table| == IRQ_MAX_HANDLERS
  {
    if IntId(iar) < IRQ_MAX_HANDLERS then table[IntId(iar)] else Empty
  }

  /** What happens between acknowledge and end of interrupt. */
  function During(handler: Handler, iar: u32, made: seq<Registration>): seq<Event> {
    match handler
    case Registered(id) => [Call(id, IntId(iar))] + Writes(made)
    case Empty => []
  }

  function Interrupt(handler: Handler, iar: u32, made: seq<Registration>): seq<Event> {
    if IntId(iar) == SPURIOUS then [Acknowledge(iar)]
    else [Acknowledge(iar)] + During(handler, iar, made) + [EndOfInterrupt(iar)]
  }

  function Act(table: seq<Handler>, trace: seq<Event>, input: Input): (r: (seq<Handler>, seq<Event>))
    requires |table| == IRQ_MAX_HANDLERS
    ensures |r.0| == IRQ_MAX_HANDLERS
  {
    match input
    case Register(r) => (Tabled(table, [r]), trace + Writes([r]))
    case Exception(exc_id, iar, made) =>
      if !IsIrq(exc_id) then (table, trace + [HaltForever])
      else
        var handler := Lookup(table, iar);
        (if handler.Registered? then Tabled(table, made) else table, trace + Interrupt(handler, iar, made))
  }

  function Run(table: seq<Handler>, inputs: seq<Input>): (r: (seq<Handler>, seq<Event>))
    requires |table| == IRQ_MAX_HANDLERS
    ensures |r.0| == IRQ_MAX_HANDLERS
  {
    if inputs == [] then (table, [])
    else
      var before := Run(table, inputs[..|inputs| - 1]);
      if Halted(before.1) then before else Act(before.0, before.1, inputs[|inputs| - 1])
  }

  // ---- Acknowledges and ends ----

  /** The acknowledged values that call for an end of interrupt. */
  function Acknowledged(trace: seq<Event>): seq<u32> {
    if trace == [] then []
    else
      var e := trace[|trace| - 1];
      Acknowledged(trace[..|trace| - 1]) +
      if e.Acknowledge? && IntId(e.iar) != SPURIOUS then [e.iar] else []
  }

  function Ended(trace: seq<Event>): seq<u32> {
    if trace == [] then []
    else
      var e := trace[|trace| - 1];
      Ended(trace[..|trace| - 1]) + if e.EndOfInterrupt? then [e.iar] else []
  }

  lemma TraceMore(trace: seq<Event>, e: Event)
    ensures Acknowledged(trace + [e]) ==
            Acknowledged(trace) + if e.Acknowledge? && IntId(e.iar) != SPURIOUS then [e.iar] else []
    ensures Ended(trace + [e]) == Ended(trace) + if e.EndOfInterrupt? then [e.iar] else []
  {
    assert (trace + [e])[..|trace|] == trace;
  }

  predicate Quiet(e: Event) {
    e.Call? || e.EnableWrite?
  }

  lemma {:induction false} QuietMore(trace: seq<Event>, mid: seq<Event>)
    requires forall e :: e in mid ==> Quiet(e)
    ensures Acknowledged(trace + mid) == Acknowledged(trace) && Ended(trace + mid) == Ended(trace)
  {
    hide Acknowledged, Ended;
    if mid == [] {
      assert trace + mid == trace;
    } else {
      var n := |mid| - 1;
      QuietMore(trace, mid[..n]);
      TraceMore(trace + mid[..n], mid[n]);
      assert Quiet(mid[n]);
      assert trace + mid == trace + mid[..n] + [mid[n]];
    }
  }

  /** Event `i` ends what was acknowledged at `j`, with only the handler in between. */
  ghost predicate Closes(trace: seq<Event>, j: nat, i: nat)
    requires i < |trace| && trace[i].EndOfInterrupt?
  {
    && j < i && trace[j] == Acknowledge(trace[i].iar)
    && forall k :: j < k < i ==> Quiet(trace[k])
  }

  ghost predicate Bracketed(trace: seq<Event>) {
    forall i :: 0 <= i < |trace| && trace[i].EndOfInterrupt? ==> exists j :: Closes(trace, j, i)
  }

  lemma InterruptMatched(trace: seq<Event>, handler: Handler, iar: u32, made: seq<Registration>)
    requires Ended(trace) == Acknowledged(trace)
    ensures var t := trace + Interrupt(handler, iar, made); Ended(t) == Acknowledged(t)
  {
    hide Acknowledged, Ended, Writes;
    var mid := During(handler, iar, made);
    var ack, eoi := Acknowledge(iar), EndOfInterrupt(iar);
    TraceMore(trace, ack);
    if IntId(iar) != SPURIOUS {
      QuietMore(trace + [ack], mid);
      TraceMore(trace + [ack] + mid, eoi);
      assert trace + Interrupt(handler, iar, made) == trace + [ack] + mid + [eoi];
    }
  }

  lemma StillBracketed(trace: seq<Event>, t: seq<Event>)
    requires Bracketed(trace) && |trace| <= |t| && t[..|trace|] == trace
    requires forall i :: |trace| <= i < |t| && t[i].EndOfInterrupt? ==> exists j :: Closes(t, j, i)
    ensures Bracketed(t)
  {
    forall i | 0 <= i < |t| && t[i].EndOfInterrupt?
      ensures exists j :: Closes(t, j, i)
    {
      if i < |trace| {
        assert trace[i] == t[i];
        var j: nat :| Closes(trace, j, i);
        assert forall k :: 0 <= k < |trace| ==> trace[k] == t[k];
        assert Closes(t, j, i);
      }
    }
  }

  lemma QuietBracketed(trace: seq<Event>, mid: seq<Event>)
    requires Bracketed(trace) && forall e :: e in mid ==> Quiet(e)
    ensures Bracketed(trace + mid)
  {
    var t := trace + mid;
    assert forall k :: |trace| <= k < |t| ==> t[k] in mid;
    StillBracketed(trace, t);
  }

  lemma HaltBracketed(trace: seq<Event>)
    requires Bracketed(trace)
    ensures Bracketed(trace + [HaltForever])
  {
    StillBracketed(trace, trace + [HaltForever]);
  }

  /** An end of interrupt closes an acknowledge after which only `mid` happened. */
  lemma EndBracketed(trace: seq<Event>, iar: u32, mid: seq<Event>)
    requires Bracketed(trace) && forall e :: e in mid ==> Quiet(e)
    ensures Bracketed(trace + [Acknowledge(iar)] + mid + [EndOfInterrupt(iar)])
  {
    hide Bracketed, Quiet;
    var n := |trace|;
    var open := trace + [Acknowledge(iar)];
    AcknowledgeBracketed(trace, iar);
    QuietBracketed(open, mid);
    var t := open + mid + [EndOfInterrupt(iar)];
    forall k | n < k < |t| - 1
      ensures Quiet(t[k])
    {
      assert t[k] == mid[k - n - 1] && mid[k - n - 1] in mid;
    }
    assert Closes(t, n, |t| - 1);
    StillBracketed(open + mid, t);
  }

  lemma AcknowledgeBracketed(trace: seq<Event>, iar: u32)
    requires Bracketed(trace)
    ensures Bracketed(trace + [Acknowledge(iar)])
  {
    StillBracketed(trace, trace + [Acknowledge(iar)]);
  }

  lemma InterruptBracketed(trace: seq<Event>, handler: Handler, iar: u32, made: seq<Registration>)
    requires Bracketed(trace)
    ensures Bracketed(trace + Interrupt(handler, iar, made))
  {
    hide Writes, Bracketed;
    var mid := During(handler, iar, made);
    if IntId(iar) == SPURIOUS {
      AcknowledgeBracketed(trace, iar);
    } else {
      assert forall e :: e in mid ==> Quiet(e);
      EndBracketed(trace, iar, mid);
      assert trace + Interrupt(handler, iar, made)
          == trace + [Acknowledge(iar)] + mid + [EndOfInterrupt(iar)];
    }
  }

  lemma ActMatched(table: seq<Handler>, trace: seq<Event>, input: Input)
    requires |table| == IRQ_MAX_HANDLERS && Ended(trace) == Acknowledged(trace) && Bracketed(trace)
    ensures var t := Act(table, trace, input).1; Ended(t) == Acknowledged(t) && Bracketed(t)
  {
    hide Acknowledged, Ended, Writes, Interrupt, Bracketed;
    match input
    case Register(r) =>
      QuietMore(trace, Writes([r]));
      QuietBracketed(trace, Writes([r]));
    case Exception(exc_id, iar, made) =>
      if IsIrq(exc_id) {
        InterruptMatched(trace, Lookup(table, iar), iar, made);
        InterruptBracketed(trace, Lookup(table, iar), iar, made);
      } else {
        TraceMore(trace, HaltForever);
        HaltBracketed(trace);
      }
  }

  /** Over any run, between two exceptions, the ends of interrupt are exactly the
      acknowledges that were not spurious, with the same values in the same order;
      and each comes after its own acknowledge with only the handler in between. */
  lemma {:induction false} AcknowledgesMatched(table: seq<Handler>, inputs: seq<Input>)
    requires |table| == IRQ_MAX_HANDLERS
    ensures var trace := Run(table, inputs).1; Ended(trace) == Acknowledged(trace) && Bracketed(trace)
  {
    hide Acknowledged, Ended, Act;
    if inputs == [] {
      assert Acknowledged([]) == [] == Ended([]) by { NothingYet(); }
    } else {
      var n := |inputs| - 1;
      AcknowledgesMatched(table, inputs[..n]);
      var before := Run(table, inputs[..n]);
      if !Halted(before.1) {
        ActMatched(before.0, before.1, inputs[n]);
      }
    }
  }

  lemma NothingYet()
    ensures Acknowledged([]) == [] == Ended([])
  {
  }

  // ---- Which handler is called ----

  function EmptyTable(): (t: seq<Handler>)
    ensures |t| == IRQ_MAX_HANDLERS
  {
    seq(IRQ_MAX_HANDLERS, _ => Empty)
  }

  /** The last of some registrations for an interrupt, `before` when there is none. */
  function LastOf(made: seq<Registration>, irq_id: nat, before: Handler): Handler {
    if made == [] then before
    else if made[|made| - 1].irq_id == irq_id then made[|made| - 1].handler
    else LastOf(made[..|made| - 1], irq_id, before)
  }

  /** The handler last registered for an interrupt, by the program or by a handler
      that was called. */
  function LastRegistered(inputs: seq<Input>, irq_id: nat): Handler {
    if inputs == [] then Empty
    else
      var before := inputs[..|inputs| - 1];
      match inputs[|inputs| - 1]
      case Register(r) => LastOf([r], irq_id, LastRegistered(before, irq_id))
      case Exception(_, iar, made) =>
        if IntId(iar) < IRQ_MAX_HANDLERS && LastRegistered(before, IntId(iar)).Registered? then
          LastOf(made, irq_id, LastRegistered(before, irq_id))
        else LastRegistered(before, irq_id)
  }

  /** Only interrupts happen, so that the core keeps running. */
  ghost predicate Running(inputs: seq<Input>) {
    forall i :: 0 <= i < |inputs| && inputs[i].Exception? ==> IsIrq(inputs[i].exc_id)
  }

  lemma {:induction false} TabledIsLast(table: seq<Handler>, made: seq<Registration>, irq_id: nat)
    requires |table| == IRQ_MAX_HANDLERS && irq_id < IRQ_MAX_HANDLERS
    ensures Tabled(table, made)[irq_id] == LastOf(made, irq_id, table[irq_id])
  {
    if made != [] {
      TabledIsLast(table, made[..|made| - 1], irq_id);
    }
  }

  lemma {:induction false} TableIsLastRegistered(inputs: seq<Input>, irq_id: nat)
    requires irq_id < IRQ_MAX_HANDLERS && Running(inputs)
    ensures !Halted(Run(EmptyTable(), inputs).1)
    ensures Run(EmptyTable(), inputs).0[irq_id] == LastRegistered(inputs, irq_id)
  {
    hide Tabled, Writes, LastOf;
    if inputs != [] {
      var n := |inputs| - 1;
      var before := Run(EmptyTable(), inputs[..n]);
      TableIsLastRegistered(inputs[..n], irq_id);
      match inputs[n]
      case Register(r) =>
        TabledIsLast(before.0, [r], irq_id);
        WritesNeverHalt(before.1, [r]);
      case Exception(exc_id, iar, made) =>
        assert IsIrq(exc_id);
        TabledIsLast(before.0, made, irq_id);
        if IntId(iar) < IRQ_MAX_HANDLERS {
          TableIsLastRegistered(inputs[..n], IntId(iar));
        }
    }
  }

  lemma WritesNeverHalt(trace: seq<Event>, made: seq<Registration>)
    requires !Halted(trace)
    ensures !Halted(trace + Writes(made))
  {
    var w := Writes(made);
    if w != [] {
      assert w[|w| - 1] in w;
    }
  }

  /** An interrupt calls the handler registered last for it, once, between its
      acknowledge and its end; with none registered, or for an id beyond the table,
      it calls nothing; and a spurious one is only acknowledged. */
  lemma DispatchesLastRegistered(inputs: seq<Input>, exc_id: nat, iar: u32, made: seq<Registration>)
    requires Running(inputs) && IsIrq(exc_id)
    ensures var trace := Run(EmptyTable(), inputs + [Exception(exc_id, iar, made)]).1;
            var handler := if IntId(iar) < IRQ_MAX_HANDLERS then LastRegistered(inputs, IntId(iar)) else Empty;
            trace == Run(EmptyTable(), inputs).1 +
              if IntId(iar) == SPURIOUS then [Acknowledge(iar)]
              else if handler.Registered? then
                [Acknowledge(iar), Call(handler.id, IntId(iar))] + Writes(made) + [EndOfInterrupt(iar)]
              else [Acknowledge(iar), EndOfInterrupt(iar)]
  {
    hide Tabled, Writes, LastRegistered;
    var more := inputs + [Exception(exc_id, iar, made)];
    assert more[..|inputs|] == inputs;
    TableIsLastRegistered(inputs, 0);
    if IntId(iar) < IRQ_MAX_HANDLERS {
      TableIsLastRegistered(inputs, IntId(iar));
    }
    var handler := Lookup(Run(EmptyTable(), inputs).0, iar);
    if handler.Registered? {
      assert Interrupt(handler, iar, made) ==
        [Acknowledge(iar), Call(handler.id, IntId(iar))] + Writes(made) + [EndOfInterrupt(iar)];
    } else {
      assert IntId(iar) != SPURIOUS ==> Interrupt(handler, iar, made) == [Acknowledge(iar), EndOfInterrupt(iar)];
    }
  }

  /** Any other exception stops the core for good: nothing happens after it. */
  lemma {:induction false} FatalStops(inputs: seq<Input>, exc_id: nat, iar: u32, made: seq<Registration>,
                                       more: seq<Input>)
    requires !IsIrq(exc_id) && !Halted(Run(EmptyTable(), inputs).1)
    ensures Run(EmptyTable(), inputs + [Exception(exc_id, iar, made)] + more).1
         == Run(EmptyTable(), inputs).1 + [HaltForever]
  {
    hide Act, Writes, Tabled;
    var fatal := inputs + [Exception(exc_id, iar, made)];
    if more == [] {
      assert fatal + more == fatal && fatal[..|inputs|] == inputs;
      var before := Run(EmptyTable(), inputs);
      assert Act(before.0, before.1, Exception(exc_id, iar, made)).1 == before.1 + [HaltForever] by {
        FatalAct(before.0, before.1, exc_id, iar, made);
      }
    } else {
      var n := |more| - 1;
      assert (fatal + more)[..|fatal| + n] == fatal + more[..n];
      FatalStops(inputs, exc_id, iar, made, more[..n]);
    }
  }

  lemma FatalAct(table: seq<Handler>, trace: seq<Event>, exc_id: nat, iar: u32, made: seq<Registration>)
    requires |table| == IRQ_MAX_HANDLERS && !IsIrq(exc_id)
    ensures Act(table, trace, Exception(exc_id, iar, made)).1 == trace + [HaltForever]
  {
  }
}
