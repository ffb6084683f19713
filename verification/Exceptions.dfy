/** src/vector.S: the exception frame, saved on entry and restored before eret. */
module Exceptions {
  import opened Bytes
  import opened ContextSwitch

  const FRAME_SIZE := 0x110
  const GPRS := 31
  const FRAME_WORDS := 34

  /** x0..x30, the stack pointer and the two exception registers. */
  datatype Core = Core(mem: seq<bv8>, x: seq<u64>, sp: u64, elr: u64, spsr: u64)

  /** `exc_frame_t`: x[31], sp_el1, elr_el1, spsr_el1. */
  function FrameOf(c: Core): (words: seq<u64>)
    requires |c.x| == GPRS
    ensures |words| == FRAME_WORDS
  {
    c.x + [c.sp, c.elr, c.spsr]
  }

  /** Memory with the first `n` words of a frame at `base`. */
  function Framed(mem: seq<bv8>, base: nat, words: seq<u64>, n: nat): (r: seq<bv8>)
    requires n <= |words| && base + 8 * |words| <= |mem|
    ensures |r| == |mem|
  {
    if n == 0 then mem else Store(Framed(mem, base, words, n - 1), base + 8 * (n - 1), words[n - 1])
  }

  /** The frame at `base` holds these words. */
  ghost predicate Holds(mem: seq<bv8>, base: nat, words: seq<u64>) {
    base + 8 * |words| <= |mem| && forall k :: 0 <= k < |words| ==> Load(mem, base + 8 * k) == words[k]
  }

  lemma {:induction false} FramedHolds(mem: seq<bv8>, base: nat, words: seq<u64>, n: nat)
    requires n <= |words| && base + 8 * |words| <= |mem|
    ensures forall k :: 0 <= k < n ==> Load(Framed(mem, base, words, n), base + 8 * k) == words[k]
    ensures SameOutside(mem, Framed(mem, base, words, n), base, base + 8 * n)
  {
    hide Load, Store;
    if n > 0 {
      var before := Framed(mem, base, words, n - 1);
      var after := Framed(mem, base, words, n);
      FramedHolds(mem, base, words, n - 1);
      LoadStored(before, base + 8 * (n - 1), words[n - 1]);
      StoreElsewhere(before, base + 8 * (n - 1), words[n - 1]);
      forall k | 0 <= k < n - 1
        ensures Load(after, base + 8 * k) == words[k]
      {
        LoadSame(before, after, base + 8 * k);
      }
    }
  }

  /** What save_regs leaves: the frame below the old stack pointer, its address in
      SP and x1, the exception id in x0, and x10/x11 used as scratch. */
  ghost predicate Entered(c: Core, exc_id: u64, d: Core) {
    && |c.x| == GPRS && FRAME_SIZE <= c.sp <= |c.mem| && |d.x| == GPRS
    && d.sp == c.sp - FRAME_SIZE
    && Holds(d.mem, d.sp, FrameOf(c))
    && SameOutside(c.mem, d.mem, d.sp, c.sp)
    && d.x == c.x[0 := exc_id][1 := d.sp][10 := c.elr][11 := c.spsr]
    && d.elr == c.elr && d.spsr == c.spsr
  }

  /** Where `exc_frame_t` expects them. */
  lemma FrameLayout(c: Core, exc_id: u64, d: Core)
    requires Entered(c, exc_id, d)
    ensures forall k :: 0 <= k < GPRS ==> Load(d.mem, d.sp + 8 * k) == c.x[k]
    ensures Load(d.mem, d.sp + 0xF8) == c.sp
    ensures Load(d.mem, d.sp + 0x100) == c.elr && Load(d.mem, d.sp + 0x108) == c.spsr
  {
    hide Load;
    var words := FrameOf(c);
    assert Load(d.mem, d.sp + 8 * 31) == words[31] && Load(d.mem, d.sp + 8 * 32) == words[32];
    assert Load(d.mem, d.sp + 8 * 33) == words[33];
    forall k | 0 <= k < GPRS
      ensures Load(d.mem, d.sp + 8 * k) == c.x[k]
    {
      assert words[k] == c.x[k];
    }
  }

  /** What a handler must keep: the stack pointer and the frame. Registers, other
      memory, and ELR and SPSR may all change. */
  ghost predicate HandlerKeeps(d: Core, e: Core) {
    && e.sp == d.sp && |e.mem| == |d.mem| && |e.x| == GPRS
    && forall i :: d.sp <= i < d.sp + FRAME_SIZE && i < |d.mem| ==> e.mem[i] == d.mem[i]
  }

  /** What restore_regs leaves just before eret. */
  ghost predicate Restored(e: Core, r: Core) {
    && |r.x| == GPRS && e.sp + FRAME_SIZE <= |e.mem|
    && r.mem == e.mem && r.sp == e.sp + FRAME_SIZE
    && (forall k :: 0 <= k < GPRS ==> r.x[k] == Load(e.mem, e.sp + 8 * k))
    && r.elr == Load(e.mem, e.sp + 0x100) && r.spsr == Load(e.mem, e.sp + 0x108)
  }

  /** An interrupt is invisible to the code it interrupts: x0..x30, SP, and the
      return address and state that eret uses are those of the entry, and memory
      outside the frame is what the handler made of it. */
  lemma InterruptTransparent(c: Core, exc_id: u64, d: Core, e: Core, r: Core)
    requires Entered(c, exc_id, d) && HandlerKeeps(d, e) && Restored(e, r)
    ensures r.x == c.x && r.sp == c.sp && r.elr == c.elr && r.spsr == c.spsr
  {
    hide Load;
    var words := FrameOf(c);
    forall k | 0 <= k < FRAME_WORDS
      ensures Load(e.mem, e.sp + 8 * k) == words[k]
    {
      LoadSame(d.mem, e.mem, d.sp + 8 * k);
    }
    assert forall k :: 0 <= k < GPRS ==> r.x[k] == words[k];
    assert Load(e.mem, e.sp + 8 * 32) == words[32] && Load(e.mem, e.sp + 8 * 33) == words[33];
    assert r.x == c.x;
  }

  // ---- The macros ----

  class Machine {
    const mem: array<bv8>
    const x: array<u64>
    var sp: u64
    var elr: u64
    var spsr: u64

    constructor (size: nat)
      ensures mem.Length == size && x.Length == GPRS && fresh(mem) && fresh(x)
    {
      mem := new bv8[size];
      x := new u64[GPRS];
      sp, elr, spsr := 0, 0, 0;
    }

    ghost function View(): Core
      reads this, mem, x
    {
      Core(mem[..], x[..], sp, elr, spsr)
    }

    /** stp xk, x(k+1), [sp, #8k], as one of the macro's fifteen in order. */
    method StorePair(k: nat, ghost mem0: seq<bv8>, ghost words: seq<u64>)
      requires k + 1 < GPRS && x.Length == GPRS
      requires |words| == FRAME_WORDS && sp + FRAME_SIZE <= mem.Length == |mem0|
      requires x[..] == words[..GPRS] && mem[..] == Framed(mem0, sp, words, k)
      modifies mem
      ensures mem[..] == Framed(mem0, sp, words, k + 2)
    {
      hide Store;
      assert x[k] == words[k] && x[k + 1] == words[k + 1];
      StoreWord(mem, sp + 8 * k, x[k]);
      StoreWord(mem, sp + 8 * k + 8, x[k + 1]);
    }

    /** The fifteen pairs x0..x29. */
    method StorePairs(ghost mem0: seq<bv8>, ghost words: seq<u64>)
      requires x.Length == GPRS
      requires |words| == FRAME_WORDS && sp + FRAME_SIZE <= mem.Length == |mem0|
      requires x[..] == words[..GPRS] && mem[..] == mem0
      modifies mem
      ensures mem[..] == Framed(mem0, sp, words, 30)
    {
      hide Framed;
      NothingFramed(mem0, sp, words);
      StorePair(0, mem0, words);
      StorePair(2, mem0, words);
      StorePair(4, mem0, words);
      StorePair(6, mem0, words);
      StorePair(8, mem0, words);
      StorePair(10, mem0, words);
      StorePair(12, mem0, words);
      StorePair(14, mem0, words);
      StorePair(16, mem0, words);
      StorePair(18, mem0, words);
      StorePair(20, mem0, words);
      StorePair(22, mem0, words);
      StorePair(24, mem0, words);
      StorePair(26, mem0, words);
      StorePair(28, mem0, words);
    }

    /** save_regs. */
    method SaveRegs(exc_id: u64)
      requires x.Length == GPRS && FRAME_SIZE <= sp <= mem.Length
      modifies this, mem, x
      ensures Entered(old(View()), exc_id, View())
    {
      hide Store, Framed, Load;
      ghost var c := View();
      ghost var words := FrameOf(c);
      sp := sp - FRAME_SIZE;
      StorePairs(c.mem, words);
      FrameTail(c.mem, sp, words);
      StoreWord(mem, sp + 0x0F0, x[30]);
      x[10] := sp + FRAME_SIZE;
      StoreWord(mem, sp + 0x0F8, x[10]);
      x[10] := elr;
      x[11] := spsr;
      StoreWord(mem, sp + 0x100, x[10]);
      StoreWord(mem, sp + 0x108, x[11]);
      x[0] := exc_id;
      x[1] := sp;
      FramedHolds(c.mem, sp, words, FRAME_WORDS);
    }

    /** ldp xk, x(k+1), [sp, #8k], with the registers above already loaded. */
    method LoadPair(k: nat)
      requires k + 1 < GPRS && x.Length == GPRS && sp + FRAME_SIZE <= mem.Length
      requires Loaded(mem[..], sp, x[..], k + 2)
      modifies x
      ensures Loaded(mem[..], sp, x[..], k)
    {
      hide Load;
      x[k] := Load(mem[..], sp + 8 * k);
      x[k + 1] := Load(mem[..], sp + 8 * (k + 1));
    }

    /** restore_regs, up to eret. */
    method RestoreRegs()
      requires x.Length == GPRS && sp + FRAME_SIZE <= mem.Length && sp + FRAME_SIZE < 0x1_0000_0000_0000_0000
      modifies this, x
      ensures Restored(old(View()), View())
    {
      hide Load;
      x[10], x[11] := Load(mem[..], sp + 0x100), Load(mem[..], sp + 0x108);
      elr := x[10];
      spsr := x[11];
      x[30] := Load(mem[..], sp + 0x0F0);
      LoadPair(28);
      LoadPair(26);
      LoadPair(24);
      LoadPair(22);
      LoadPair(20);
      LoadPair(18);
      LoadPair(16);
      LoadPair(14);
      LoadPair(12);
      LoadPair(10);
      LoadPair(8);
      LoadPair(6);
      LoadPair(4);
      LoadPair(2);
      LoadPair(0);
      sp := sp + FRAME_SIZE;
    }
  }

  /** Registers from number `from` up have the values of the frame at `base`. */
  ghost predicate Loaded(mem: seq<bv8>, base: nat, x: seq<u64>, from: nat) {
    && |x| == GPRS && base + 8 * GPRS <= |mem|
    && forall k :: from <= k < GPRS ==> x[k] == Load(mem, base + 8 * k)
  }

  lemma NothingFramed(mem: seq<bv8>, base: nat, words: seq<u64>)
    requires base + 8 * |words| <= |mem|
    ensures Framed(mem, base, words, 0) == mem
  {
  }

  lemma FrameTail(mem: seq<bv8>, base: nat, words: seq<u64>)
    requires |words| == FRAME_WORDS && base + FRAME_SIZE <= |mem|
    ensures Framed(mem, base, words, FRAME_WORDS) ==
            Store(Store(Store(Store(Framed(mem, base, words, 30),
              base + 0x0F0, words[30]), base + 0x0F8, words[31]), base + 0x100, words[32]), base + 0x108, words[33])
  {
    hide Store;
    assert Framed(mem, base, words, 32) ==
      Store(Store(Framed(mem, base, words, 30), base + 8 * 30, words[30]), base + 8 * 31, words[31]);
  }
}
