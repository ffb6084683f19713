/** src/sched.S and the initial stack frame of sched_add_task: byte-addressed memory,
    the callee-saved registers x19..x30 and the stack pointer. */
module ContextSwitch {
  import opened Bytes

  const REGS := 12
  const FRAME := 96

  /** `regs[k]` is register x(19+k). */
  datatype Cpu = Cpu(mem: seq<bv8>, regs: seq<u64>, sp: nat)

  function Load(mem: seq<bv8>, a: nat): u64
    requires a + 8 <= |mem|
  {
    LittleEndianValue(mem[a..a + 8]) % 0x1_0000_0000_0000_0000
  }

  function Store(mem: seq<bv8>, a: nat, v: u64): (r: seq<bv8>)
    requires a + 8 <= |mem|
    ensures |r| == |mem|
  {
    mem[..a] + LittleEndian(v, 8) + mem[a + 8..]
  }

  lemma LoadStored(mem: seq<bv8>, a: nat, v: u64)
    requires a + 8 <= |mem|
    ensures Load(Store(mem, a, v), a) == v
  {
    hide LittleEndian, LittleEndianValue;
    assert Store(mem, a, v)[a..a + 8] == LittleEndian(v, 8);
    Pow256Of8();
    LittleEndianRoundTrip(v, 8);
  }

  /** The same bytes load the same word. */
  lemma LoadSame(mem: seq<bv8>, mem': seq<bv8>, a: nat)
    requires a + 8 <= |mem| == |mem'|
    requires forall i :: a <= i < a + 8 ==> mem'[i] == mem[i]
    ensures Load(mem', a) == Load(mem, a)
  {
    assert mem'[a..a + 8] == mem[a..a + 8];
  }

  lemma StoreElsewhere(mem: seq<bv8>, a: nat, v: u64)
    requires a + 8 <= |mem|
    ensures forall i :: 0 <= i < |mem| && !(a <= i < a + 8) ==> Store(mem, a, v)[i] == mem[i]
  {
    hide LittleEndian;
  }

  /** Offset of register k in a saved frame: the pairs are pushed x19/x20 first. */
  function FrameOffset(k: nat): (offset: nat)
    requires k < REGS
    ensures offset + 8 <= FRAME
  {
    (5 - k / 2) * 16 + k % 2 * 8
  }

  ghost predicate FrameHolds(mem: seq<bv8>, base: nat, regs: seq<u64>) {
    && |regs| == REGS && base + FRAME <= |mem|
    && forall k :: 0 <= k < REGS ==> Load(mem, base + FrameOffset(k)) == regs[k]
  }

  /** Outside [from, to) the two memories agree. */
  ghost predicate SameOutside(mem: seq<bv8>, mem': seq<bv8>, from: nat, to: nat) {
    |mem'| == |mem| && forall i :: 0 <= i < |mem| && !(from <= i < to) ==> mem'[i] == mem[i]
  }

  /** Memory after the first `pairs` of the six pushes. */
  function Pushed(mem: seq<bv8>, sp: nat, regs: seq<u64>, pairs: nat): (r: seq<bv8>)
    requires |regs| == REGS && pairs <= 6 && 16 * pairs <= sp <= |mem|
    ensures |r| == |mem|
  {
    if pairs == 0 then mem
    else
      var k := 2 * (pairs - 1);
      var before := Pushed(mem, sp, regs, pairs - 1);
      Store(Store(before, sp - 16 * pairs, regs[k]), sp - 16 * pairs + 8, regs[k + 1])
  }

  /** Where the pushes put register k, counted from the stack pointer they began with. */
  function PushDepth(k: nat): (depth: nat)
    ensures 8 <= depth
  {
    16 * (k / 2 + 1) - k % 2 * 8
  }

  lemma PairHolds(mem: seq<bv8>, a: nat, v: u64, w: u64)
    requires a + 16 <= |mem|
    ensures var r := Store(Store(mem, a, v), a + 8, w);
            && Load(r, a) == v && Load(r, a + 8) == w
            && SameOutside(mem, r, a, a + 16)
  {
    hide Load, Store;
    var m := Store(mem, a, v);
    var r := Store(m, a + 8, w);
    LoadStored(mem, a, v);
    LoadStored(m, a + 8, w);
    StoreElsewhere(mem, a, v);
    StoreElsewhere(m, a + 8, w);
    LoadSame(m, r, a);
  }

  lemma {:induction false} PushedHolds(mem: seq<bv8>, sp: nat, regs: seq<u64>, pairs: nat)
    requires |regs| == REGS && pairs <= 6 && 16 * pairs <= sp <= |mem|
    ensures SameOutside(mem, Pushed(mem, sp, regs, pairs), sp - 16 * pairs, sp)
    ensures forall k :: 0 <= k < 2 * pairs ==>
              PushDepth(k) <= 16 * pairs && Load(Pushed(mem, sp, regs, pairs), sp - PushDepth(k)) == regs[k]
  {
    hide Load, Store;
    if pairs > 0 {
      var before := Pushed(mem, sp, regs, pairs - 1);
      var after := Pushed(mem, sp, regs, pairs);
      PushedHolds(mem, sp, regs, pairs - 1);
      PairHolds(before, sp - 16 * pairs, regs[2 * pairs - 2], regs[2 * pairs - 1]);
      forall k | 0 <= k < 2 * pairs
        ensures PushDepth(k) <= 16 * pairs && Load(after, sp - PushDepth(k)) == regs[k]
      {
        if k < 2 * pairs - 2 {
          LoadSame(before, after, sp - PushDepth(k));
        }
      }
    }
  }

  lemma PushedFrame(mem: seq<bv8>, sp: nat, regs: seq<u64>)
    requires |regs| == REGS && FRAME <= sp <= |mem|
    ensures FrameHolds(Pushed(mem, sp, regs, 6), sp - FRAME, regs)
    ensures SameOutside(mem, Pushed(mem, sp, regs, 6), sp - FRAME, sp)
  {
    hide Load, Pushed;
    PushedHolds(mem, sp, regs, 6);
    assert forall k :: 0 <= k < REGS ==> FRAME - PushDepth(k) == FrameOffset(k);
  }

  /** What the whole switch does: the registers go into a frame below the old stack
      pointer, its address into the old TCB; the registers come out of the frame
      that the new TCB points to. Nothing else in memory changes. */
  ghost predicate Switched(c: Cpu, old_tcb: nat, new_tcb: nat, d: Cpu) {
    && |c.regs| == REGS && |d.mem| == |c.mem|
    && FRAME <= c.sp && old_tcb + 8 <= |c.mem| && new_tcb + 8 <= |c.mem|
    && FrameHolds(d.mem, c.sp - FRAME, c.regs)
    && Load(d.mem, old_tcb) == c.sp - FRAME
    && FrameHolds(d.mem, Load(d.mem, new_tcb), d.regs)
    && d.sp == Load(d.mem, new_tcb) + FRAME
    && forall i :: 0 <= i < |c.mem| && !(c.sp - FRAME <= i < c.sp) && !(old_tcb <= i < old_tcb + 8)
         ==> d.mem[i] == c.mem[i]
  }

  // ---- The instructions ----

  /** str: eight bytes, least significant first. */
  method StoreWord(mem: array<bv8>, a: nat, v: u64)
    requires a + 8 <= mem.Length
    modifies mem
    ensures mem[..] == Store(old(mem[..]), a, v)
  {
    var bytes := LittleEndian(v, 8);
    ghost var before := mem[..];
    var i := 0;
    while i < 8
      invariant 0 <= i <= 8
      invariant mem[..] == before[..a] + bytes[..i] + before[a + i..]
    {
      mem[a + i] := bytes[i];
      i := i + 1;
    }
  }

  class Machine {
    const mem: array<bv8>
    const x: array<u64>
    var sp: nat

    constructor (size: nat)
      ensures mem.Length == size && x.Length == REGS && fresh(mem) && fresh(x)
    {
      mem := new bv8[size];
      x := new u64[REGS];
      sp := 0;
    }

    /** stp x(19+k), x(20+k), [sp, #-16]! */
    method PushPair(k: nat)
      requires x.Length == REGS && k + 1 < REGS
      requires 16 <= sp <= mem.Length
      modifies this, mem
      ensures sp == old(sp) - 16
      ensures mem[..] == Store(Store(old(mem[..]), sp, x[k]), sp + 8, x[k + 1])
    {
      sp := sp - 16;
      StoreWord(mem, sp, x[k]);
      StoreWord(mem, sp + 8, x[k + 1]);
    }

    /** ldp x(19+k), x(20+k), [sp], #16 */
    method PopPair(k: nat)
      requires x.Length == REGS && k + 1 < REGS && sp + 16 <= mem.Length
      modifies this, x
      ensures sp == old(sp) + 16
      ensures x[..] == old(x[..])[k := Load(mem[..], old(sp))][k + 1 := Load(mem[..], old(sp) + 8)]
    {
      x[k] := Load(mem[..], sp);
      x[k + 1] := Load(mem[..], sp + 8);
      sp := sp + 16;
    }

    ghost function View(): Cpu
      reads this, mem, x
    {
      Cpu(mem[..], x[..], sp)
    }

    method PushAll()
      requires x.Length == REGS && FRAME <= sp <= mem.Length
      modifies this, mem
      ensures sp == old(sp) - FRAME && mem[..] == Pushed(old(mem[..]), old(sp), x[..], 6)
    {
      hide Store;
      PushPair(0);
      assert mem[..] == Pushed(old(mem[..]), old(sp), x[..], 1);
      PushPair(2);
      assert mem[..] == Pushed(old(mem[..]), old(sp), x[..], 2);
      PushPair(4);
      assert mem[..] == Pushed(old(mem[..]), old(sp), x[..], 3);
      PushPair(6);
      assert mem[..] == Pushed(old(mem[..]), old(sp), x[..], 4);
      PushPair(8);
      assert mem[..] == Pushed(old(mem[..]), old(sp), x[..], 5);
      PushPair(10);
    }

    method PopAll()
      requires x.Length == REGS && sp + FRAME <= mem.Length
      modifies this, x
      ensures sp == old(sp) + FRAME && FrameHolds(mem[..], old(sp), x[..])
    {
      hide Load;
      PopPair(10);
      PopPair(8);
      PopPair(6);
      PopPair(4);
      PopPair(2);
      PopPair(0);
    }

    /** sched_context_switch(old_tcb, new_tcb), up to the final ret through x30. */
    method Switch(old_tcb: nat, new_tcb: nat)
      requires x.Length == REGS && FRAME <= sp <= mem.Length
      requires old_tcb + 8 <= mem.Length && new_tcb + 8 <= mem.Length
      requires old_tcb + 8 <= sp - FRAME || sp <= old_tcb
      requires new_tcb + 8 <= old_tcb || old_tcb + 8 <= new_tcb
      requires new_tcb + 8 <= sp - FRAME || sp <= new_tcb
      requires Load(mem[..], new_tcb) + FRAME <= mem.Length
      requires sp < 0x1_0000_0000_0000_0000
      modifies this, mem, x
      ensures Switched(old(View()), old_tcb, new_tcb, View())
    {
      hide Load, Store, Pushed, FrameHolds;
      ghost var c := View();
      PushAll();
      PushedFrame(c.mem, c.sp, c.regs);
      ghost var pushed := mem[..];
      StoreWord(mem, old_tcb, sp);
      StoreElsewhere(pushed, old_tcb, sp);
      LoadStored(pushed, old_tcb, sp);
      FrameStays(pushed, mem[..], c.sp - FRAME, c.regs);
      LoadSame(c.mem, mem[..], new_tcb);
      sp := Load(mem[..], new_tcb);
      PopAll();
    }
  }

  lemma FrameStays(mem: seq<bv8>, mem': seq<bv8>, base: nat, regs: seq<u64>)
    requires FrameHolds(mem, base, regs) && |mem'| == |mem|
    requires forall i :: base <= i < base + FRAME ==> mem'[i] == mem[i]
    ensures FrameHolds(mem', base, regs)
  {
    hide Load;
    forall k | 0 <= k < REGS
      ensures Load(mem', base + FrameOffset(k)) == regs[k]
    {
      LoadSame(mem, mem', base + FrameOffset(k));
    }
  }
}
