/** src/mmu.S on any number of cores, one memory access or register write at a time:
    the page table is built once, under a lock, before any core uses it. */
module Mmu {
  const TTB_BASE := 0x40080000
  const MAIR_VAL := 0x00FF
  const TCR_VAL := 0x803520
  const SCTLR_VAL := 0x30C51835
  const DEVICE_BLOCK := 0x705
  const NORMAL_BLOCK := 0x701
  const ENTRIES := 512

  datatype Pc =
    | LoadLock
    | TestLock(value: nat)
    | StoreLock
    | TestStored(failed: bool)
    | CheckInit
    | ZeroEntry(k: nat)
    | FillDevice
    | FillNormal
    | MarkBuilt
    | SetTtbr
    | SetMair
    | SetTcr
    | CheckTcr
    | TurnOn
    | Unlock
    | Done
    | Hang

  /** A core's program counter, exclusive monitor and the system registers it writes. */
  datatype Core = Core(pc: Pc, armed: bool, ttbr: nat, mair: nat, tcr: nat, sctlr: nat)

  /** `owner` and `writers` are history: who set the lock word, and every core that
      ever stored to the table. */
  datatype State = State(lock: nat, built: nat, table: seq<nat>, cores: seq<Core>, owner: int, writers: set<nat>)

  datatype Act =
    | Run
    | StoreFails      // STXR may fail for no visible reason
    | MonitorLost
    | TcrRefused      // the read-back of TCR differs

  function SetPc(s: State, c: nat, pc: Pc): State
    requires c < |s.cores|
  {
    s.(cores := s.cores[c := s.cores[c].(pc := pc)])
  }

  function Disarm(cores: seq<Core>): (r: seq<Core>)
    ensures |r| == |cores|
    ensures forall i :: 0 <= i < |r| ==> r[i] == cores[i].(armed := false)
  {
    seq(|cores|, i requires 0 <= i < |cores| => cores[i].(armed := false))
  }

  function StoreEntry(s: State, c: nat, k: nat, v: nat): State
    requires k < |s.table|
  {
    s.(table := s.table[k := v], writers := s.writers + {c})
  }

  function LockStep(s: State, c: nat): State
    requires c < |s.cores|
  {
    var core := s.cores[c];
    match core.pc
    case LoadLock => s.(cores := s.cores[c := core.(pc := TestLock(s.lock), armed := true)])
    case TestLock(v) => SetPc(s, c, if v != 0 then LoadLock else StoreLock)
    case StoreLock =>
      if core.armed then SetPc(s.(lock := 1, owner := c, cores := Disarm(s.cores)), c, TestStored(false))
      else SetPc(s, c, TestStored(true))
    case TestStored(failed) => SetPc(s, c, if failed then LoadLock else CheckInit)
    case _ => s
  }

  function BuildStep(s: State, c: nat): State
    requires c < |s.cores| && |s.table| == ENTRIES
  {
    match s.cores[c].pc
    case CheckInit => SetPc(s, c, if s.built != 0 then SetTtbr else ZeroEntry(0))
    case ZeroEntry(k) =>
      if k < ENTRIES then
        SetPc(StoreEntry(s, c, k, 0), c, if k + 1 < ENTRIES then ZeroEntry(k + 1) else FillDevice)
      else s
    case FillDevice => SetPc(StoreEntry(s, c, 0, DEVICE_BLOCK), c, FillNormal)
    case FillNormal => SetPc(StoreEntry(s, c, 1, NORMAL_BLOCK + 0x40000000), c, MarkBuilt)
    case MarkBuilt => SetPc(s.(built := 1), c, SetTtbr)
    case _ => s
  }

  function RegisterStep(s: State, c: nat, accepted: bool): State
    requires c < |s.cores|
  {
    var core := s.cores[c];
    match core.pc
    case SetTtbr => s.(cores := s.cores[c := core.(pc := SetMair, ttbr := TTB_BASE)])
    case SetMair => s.(cores := s.cores[c := core.(pc := SetTcr, mair := MAIR_VAL)])
    case SetTcr => s.(cores := s.cores[c := core.(pc := CheckTcr, tcr := TCR_VAL)])
    case CheckTcr => SetPc(s, c, if accepted then TurnOn else Hang)
    case TurnOn => s.(cores := s.cores[c := core.(pc := Unlock, sctlr := SCTLR_VAL)])
    case Unlock => SetPc(s.(lock := 0, owner := -1, cores := Disarm(s.cores)), c, Done)
    case _ => s
  }

  predicate Locking(pc: Pc) {
    pc.LoadLock? || pc.TestLock? || pc.StoreLock? || pc.TestStored?
  }

  predicate Building(pc: Pc) {
    pc.CheckInit? || pc.ZeroEntry? || pc.FillDevice? || pc.FillNormal? || pc.MarkBuilt?
  }

  function Step(s: State, c: nat, act: Act): State
    requires c < |s.cores| && |s.table| == ENTRIES
  {
    var core := s.cores[c];
    match act
    case MonitorLost => s.(cores := s.cores[c := core.(armed := false)])
    case StoreFails =>
      if core.pc.StoreLock? then s.(cores := s.cores[c := core.(pc := TestStored(true), armed := false)]) else s
    case TcrRefused => if core.pc.CheckTcr? then RegisterStep(s, c, false) else s
    case Run =>
      if Locking(core.pc) then LockStep(s, c)
      else if Building(core.pc) then BuildStep(s, c)
      else RegisterStep(s, c, true)
  }

  // ---- What the table means ----

  /** The table this file means to build. */
  function Finished(): (t: seq<nat>)
    ensures |t| == ENTRIES
  {
    [DEVICE_BLOCK, NORMAL_BLOCK + 0x40000000] + seq(ENTRIES - 2, _ => 0)
  }

  /** `attribute` is the index into MAIR_EL1. */
  datatype Mapping = Fault | Mapped(address: nat, attribute: nat, writable: bool)

  /** The region size that the T0SZ field (bits 5..0) of TCR_EL1 gives, in bits. */
  function VaBits(tcr: nat): int {
    64 - tcr % 64
  }

  /** The TG0 field (bits 15..14); 0 means 4 KB pages. */
  function Granule(tcr: nat): nat {
    tcr / 0x4000 % 4
  }

  /** The M bit of SCTLR_EL1. */
  predicate MmuOn(core: Core) {
    core.sctlr % 2 == 1
  }

  /** One lookup at level 1, where the walk of a 32-bit region with 4 KB pages
      starts. Each entry covers 1 GB; bits 1..0 are 01 for a block, bits 4..2 the
      memory attribute, bit 7 is set for read-only memory, bit 10 is the access flag,
      without which the access faults, and bits 47..30 are the output address. A
      table entry (11) would lead to a further level, which this table never has. */
  function Translate(table: seq<nat>, va: nat): Mapping
    requires |table| == ENTRIES && va < 0x1_0000_0000
  {
    var entry := table[va / 0x4000_0000];
    if entry % 4 == 1 && entry / 0x400 % 2 == 1 then
      Mapped(entry / 0x4000_0000 % 0x4_0000 * 0x4000_0000 + va % 0x4000_0000, entry / 4 % 8, entry / 0x80 % 2 == 0)
    else Fault
  }

  const NORMAL_MEMORY := 0
  const DEVICE_MEMORY := 1

  /** The memory type that an attribute index selects: a byte of MAIR_EL1. */
  function MairByte(mair: nat, index: nat): nat {
    if index == 0 then mair % 256 else MairByte(mair / 256, index - 1)
  }

  /** 0x00 is strongly ordered device memory, 0xFF write-back cacheable memory. */
  lemma MairSelects()
    ensures MairByte(MAIR_VAL, DEVICE_MEMORY) == 0x00 && MairByte(MAIR_VAL, NORMAL_MEMORY) == 0xFF
  {
  }

  /** The finished table maps the lower 2 GB to themselves, device memory below 1 GB
      and normal memory above, and nothing else. */
  lemma FinishedMaps(va: nat)
    requires va < 0x1_0000_0000
    ensures Translate(Finished(), va) ==
            if va < 0x4000_0000 then Mapped(va, DEVICE_MEMORY, true)
            else if va < 0x8000_0000 then Mapped(va, NORMAL_MEMORY, true)
            else Fault
  {
    var i := va / 0x4000_0000;
    if i == 0 {
      assert Finished()[i] == DEVICE_BLOCK;
    } else if i == 1 {
      assert Finished()[i] == NORMAL_BLOCK + 0x4000_0000;
    } else {
      assert Finished()[i] == 0;
    }
  }

  /** A 32-bit space with 4 KB pages, no second table (bit 23 of TCR); the
      table at a page boundary, in normal memory and below the kernel; and the MMU, the
      data cache and the instruction cache on (bits 0, 2 and 12 of SCTLR). */
  lemma RegisterValues()
    ensures VaBits(TCR_VAL) == 32 && Granule(TCR_VAL) == 0
    ensures TCR_VAL / 0x80_0000 % 2 == 1
    ensures TTB_BASE % 0x1000 == 0 && 0x4000_0000 <= TTB_BASE && TTB_BASE + 8 * ENTRIES <= 0x4010_0000
    ensures SCTLR_VAL % 2 == 1 && SCTLR_VAL / 4 % 2 == 1 && SCTLR_VAL / 0x1000 % 2 == 1
  {
  }

  // ---- Invariant ----

  predicate Holds(pc: Pc) {
    !(pc.LoadLock? || pc.TestLock? || pc.StoreLock? || pc == TestStored(true) || pc.Done?)
  }

  /** The table while the core at `pc` is building it. */
  predicate Progress(pc: Pc, table: seq<nat>)
    requires |table| == ENTRIES
  {
    match pc
    case ZeroEntry(k) => k < ENTRIES && forall i :: 0 <= i < k ==> table[i] == 0
    case FillDevice => forall i :: 0 <= i < ENTRIES ==> table[i] == 0
    case FillNormal => table[0] == DEVICE_BLOCK && forall i :: 1 <= i < ENTRIES ==> table[i] == 0
    case MarkBuilt => table == Finished()
    case _ => true
  }

  predicate CoreInv(s: State, c: nat)
    requires c < |s.cores| && |s.table| == ENTRIES
  {
    var core := s.cores[c];
    && (Holds(core.pc) <==> s.owner == c)
    && (core.pc.TestLock? && core.armed ==> core.pc.value == s.lock)
    && (core.pc.StoreLock? && core.armed ==> s.lock == 0)
    && Progress(core.pc, s.table)
    && (Writing(core.pc) ==> s.built == 0 && s.writers <= {c})
    && ((core.pc.CheckInit? || core.pc == TestStored(false)) && s.built == 0 ==> s.writers == {})
    && (AfterTable(core.pc) || core.pc.Done? || MmuOn(core) ==> s.built == 1)
    && (AfterTable(core.pc) && !core.pc.SetTtbr? ==> core.ttbr == TTB_BASE)
    && (AfterTable(core.pc) && !core.pc.SetTtbr? && !core.pc.SetMair? ==> core.mair == MAIR_VAL)
    && (core.pc.CheckTcr? || core.pc.TurnOn? ==> core.tcr == TCR_VAL)
    && (MmuOn(core) ==> RegistersSet(core))
    && (core.pc.Unlock? || core.pc.Done? ==> MmuOn(core))
  }

  predicate Writing(pc: Pc) {
    pc.ZeroEntry? || pc.FillDevice? || pc.FillNormal? || pc.MarkBuilt?
  }

  predicate AfterTable(pc: Pc) {
    pc.SetTtbr? || pc.SetMair? || pc.SetTcr? || pc.CheckTcr? || pc.TurnOn? || pc.Unlock?
  }

  predicate RegistersSet(core: Core) {
    core.ttbr == TTB_BASE && core.mair == MAIR_VAL && core.tcr == TCR_VAL
  }

  ghost predicate Inv(s: State) {
    && |s.table| == ENTRIES
    && s.lock == (if s.owner == -1 then 0 else 1)
    && -1 <= s.owner < |s.cores|
    && (s.built == 0 || s.built == 1)
    && (s.built == 1 ==> s.table == Finished())
    && (s.owner == -1 && s.built == 0 ==> s.writers == {})
    && |s.writers| <= 1
    && forall c :: 0 <= c < |s.cores| ==> CoreInv(s, c)
  }

  /** All cores before their first instruction; the table holds garbage, the MMU is off. */
  ghost predicate Initial(s: State) {
    && |s.table| == ENTRIES && s.lock == 0 && s.built == 0 && s.owner == -1 && s.writers == {}
    && forall c :: 0 <= c < |s.cores| ==> s.cores[c].pc == LoadLock && !s.cores[c].armed && !MmuOn(s.cores[c])
  }

  lemma OneWriter(writers: set<nat>, c: nat)
    requires writers <= {c}
    ensures |writers| <= 1
  {
    assert writers == {} || writers == {c};
  }

  lemma LockKeepsInv(s: State, c: nat)
    requires Inv(s) && c < |s.cores|
    ensures Inv(LockStep(s, c))
  {
    hide Finished, Progress;
    var t := LockStep(s, c);
    assert CoreInv(s, c);
    forall d | 0 <= d < |t.cores|
      ensures CoreInv(t, d)
    {
      assert CoreInv(s, d);
      if d == c {
        ProgressOutside(t.cores[d].pc, t.table);
      }
    }
  }

  /** While core `c` builds, nothing changes for the others. */
  lemma OthersUnmoved(s: State, t: State, c: nat, d: nat)
    requires Inv(s) && c < |s.cores| == |t.cores| && d < |s.cores| && d != c
    requires s.owner == c && t.owner == s.owner && t.lock == s.lock
    requires t.cores[d] == s.cores[d] && |t.table| == ENTRIES
    requires s.built == 1 ==> t.built == 1
    ensures CoreInv(t, d)
  {
    hide Finished, Progress;
    assert CoreInv(s, d);
    ProgressOutside(t.cores[d].pc, t.table);
  }

  /** The builder's stores, seen as steps on the table alone. */
  lemma ZeroProgresses(table: seq<nat>, k: nat)
    requires |table| == ENTRIES && Progress(ZeroEntry(k), table)
    ensures Progress(if k + 1 < ENTRIES then ZeroEntry(k + 1) else FillDevice, table[k := 0])
  {
  }

  lemma DeviceProgresses(table: seq<nat>)
    requires |table| == ENTRIES && Progress(FillDevice, table)
    ensures Progress(FillNormal, table[0 := DEVICE_BLOCK])
  {
  }

  lemma NormalProgresses(table: seq<nat>)
    requires |table| == ENTRIES && Progress(FillNormal, table)
    ensures Progress(MarkBuilt, table[1 := NORMAL_BLOCK + 0x40000000])
  {
    hide Finished;
    TableDone(table);
  }

  lemma BuilderProgresses(s: State, c: nat)
    requires Inv(s) && c < |s.cores| && Building(s.cores[c].pc)
    ensures var t := BuildStep(s, c); Progress(t.cores[c].pc, t.table)
  {
    hide CoreInv, Progress, Inv;
    BuilderHasProgress(s, c);
    match s.cores[c].pc {
      case CheckInit => BeginProgress(s.table);
      case ZeroEntry(k) => KBound(s.table, k); ZeroProgresses(s.table, k);
      case FillDevice => DeviceProgresses(s.table);
      case FillNormal => NormalProgresses(s.table);
      case MarkBuilt => BeginProgress(s.table);
    }
  }

  lemma BeginProgress(table: seq<nat>)
    requires |table| == ENTRIES
    ensures Progress(ZeroEntry(0), table) && Progress(SetTtbr, table)
  {
  }

  lemma KBound(table: seq<nat>, k: nat)
    requires |table| == ENTRIES && Progress(ZeroEntry(k), table)
    ensures k < ENTRIES
  {
  }

  lemma BuilderHasProgress(s: State, c: nat)
    requires Inv(s) && c < |s.cores|
    ensures |s.table| == ENTRIES && Progress(s.cores[c].pc, s.table)
  {
    hide Progress;
    assert CoreInv(s, c);
  }

  lemma MarkBuiltMeansDone(s: State, c: nat)
    requires Inv(s) && c < |s.cores| && s.cores[c].pc.MarkBuilt?
    ensures s.table == Finished()
  {
    assert CoreInv(s, c);
  }

  lemma BuilderKeepsInv(s: State, c: nat)
    requires Inv(s) && c < |s.cores| && Building(s.cores[c].pc)
    ensures CoreInv(BuildStep(s, c), c)
  {
    hide Finished, Progress;
    assert CoreInv(s, c);
    BuilderProgresses(s, c);
  }

  lemma BuilderLeaves(s: State, c: nat)
    requires Inv(s) && c < |s.cores| && Building(s.cores[c].pc)
    ensures var t := BuildStep(s, c);
            && (t.built == 1 ==> t.table == Finished())
            && t.writers <= s.writers + {c}
            && (s.cores[c].pc.CheckInit? || s.writers <= {c})
  {
    hide Finished, Progress;
    assert CoreInv(s, c);
    if s.cores[c].pc.MarkBuilt? {
      MarkBuiltMeansDone(s, c);
    }
  }

  /** What a builder's step leaves alone. */
  lemma BuilderFrame(s: State, c: nat)
    requires Inv(s) && c < |s.cores| && Building(s.cores[c].pc)
    ensures var t := BuildStep(s, c);
            && s.owner == c == t.owner && t.lock == s.lock == 1
            && |t.cores| == |s.cores| && |t.table| == ENTRIES
            && (forall d :: 0 <= d < |s.cores| && d != c ==> t.cores[d] == s.cores[d])
            && (t.built == s.built || t.built == 1)
            && (Writing(s.cores[c].pc) ==> s.writers <= {c})
            && (s.cores[c].pc.CheckInit? ==> t.writers == s.writers)
  {
    hide Finished, Progress;
    assert CoreInv(s, c);
  }

  lemma BuildKeepsInv(s: State, c: nat)
    requires Inv(s) && c < |s.cores| && Building(s.cores[c].pc)
    ensures Inv(BuildStep(s, c))
  {
    hide Finished, Progress, CoreInv, BuildStep;
    var t := BuildStep(s, c);
    BuilderFrame(s, c);
    BuilderKeepsInv(s, c);
    BuilderLeaves(s, c);
    if Writing(s.cores[c].pc) {
      OneWriter(t.writers, c);
    }
    forall d | 0 <= d < |t.cores|
      ensures CoreInv(t, d)
    {
      if d != c {
        OthersUnmoved(s, t, c, d);
      }
    }
  }

  lemma TableDone(table: seq<nat>)
    requires |table| == ENTRIES && table[0] == DEVICE_BLOCK
    requires forall i :: 1 <= i < ENTRIES ==> table[i] == 0
    ensures table[1 := NORMAL_BLOCK + 0x40000000] == Finished()
  {
  }

  lemma RegisterKeepsInv(s: State, c: nat, accepted: bool)
    requires Inv(s) && c < |s.cores|
    ensures Inv(RegisterStep(s, c, accepted))
  {
    hide Finished, Progress;
    var t := RegisterStep(s, c, accepted);
    assert CoreInv(s, c);
    forall d | 0 <= d < |t.cores|
      ensures CoreInv(t, d)
    {
      assert CoreInv(s, d);
      ProgressOutside(t.cores[d].pc, t.table);
    }
  }

  /** Only a core that writes the table has anything to say about it. */
  lemma ProgressOutside(pc: Pc, table: seq<nat>)
    requires |table| == ENTRIES
    ensures !Writing(pc) ==> Progress(pc, table)
  {
  }

  lemma StepKeepsInv(s: State, c: nat, act: Act)
    requires Inv(s) && c < |s.cores|
    ensures Inv(Step(s, c, act))
  {
    hide LockStep, BuildStep, RegisterStep, Progress;
    match act
    case Run =>
      if Locking(s.cores[c].pc) {
        LockKeepsInv(s, c);
      } else if Building(s.cores[c].pc) {
        BuildKeepsInv(s, c);
      } else {
        RegisterKeepsInv(s, c, true);
      }
    case TcrRefused => RegisterKeepsInv(s, c, false);
    case _ => MonitorKeepsInv(s, c, act);
  }

  lemma MonitorKeepsInv(s: State, c: nat, act: Act)
    requires Inv(s) && c < |s.cores| && (act.MonitorLost? || act.StoreFails?)
    ensures Inv(Step(s, c, act))
  {
    hide Progress;
    var t := Step(s, c, act);
    assert CoreInv(s, c);
    forall d | 0 <= d < |t.cores|
      ensures CoreInv(t, d)
    {
      assert CoreInv(s, d);
      ProgressOutside(t.cores[d].pc, t.table);
    }
  }

  // ---- Runs ----

  datatype Move = Move(core: nat, act: Act)

  predicate Schedule(s: State, moves: seq<Move>) {
    forall i :: 0 <= i < |moves| ==> moves[i].core < |s.cores|
  }

  function Exec(s: State, moves: seq<Move>): (t: State)
    requires Schedule(s, moves) && |s.table| == ENTRIES
    ensures |t.cores| == |s.cores| && |t.table| == ENTRIES
  {
    if moves == [] then s
    else
      var m := moves[|moves| - 1];
      Step(Exec(s, moves[..|moves| - 1]), m.core, m.act)
  }

  lemma {:induction false} RunKeepsInv(s: State, moves: seq<Move>)
    requires Initial(s) && Schedule(s, moves)
    ensures Inv(Exec(s, moves))
  {
    hide Step, Inv;
    if moves == [] {
      InitialInv(s);
    } else {
      var n := |moves| - 1;
      RunKeepsInv(s, moves[..n]);
      StepKeepsInv(Exec(s, moves[..n]), moves[n].core, moves[n].act);
    }
  }

  lemma InitialInv(s: State)
    requires Initial(s)
    ensures Inv(s)
  {
    hide Finished;
  }

  /** In every reachable state, for any number of cores: at most one core has ever
      written the table; a core that is done has its MMU on; and a core whose MMU is
      on has its registers set and translates by a table that maps each address below
      2 GB to itself and faults on the rest of the 32-bit space. */
  lemma TableReadyBeforeUse(s: State, moves: seq<Move>)
    requires Initial(s) && Schedule(s, moves)
    ensures var t := Exec(s, moves);
            && |t.writers| <= 1
            && (forall c :: 0 <= c < |t.cores| && t.cores[c].pc.Done? ==> MmuOn(t.cores[c]))
            && forall c :: 0 <= c < |t.cores| && MmuOn(t.cores[c]) ==>
                 && RegistersSet(t.cores[c])
                 && (forall va: nat :: va < 0x1_0000_0000 ==>
                       Translate(t.table, va) ==
                         if va < 0x4000_0000 then Mapped(va, DEVICE_MEMORY, true)
                         else if va < 0x8000_0000 then Mapped(va, NORMAL_MEMORY, true)
                         else Fault)
  {
    hide Exec, Translate, Finished;
    RunKeepsInv(s, moves);
    var t := Exec(s, moves);
    forall c | 0 <= c < |t.cores| && t.cores[c].pc.Done?
      ensures MmuOn(t.cores[c])
    {
      assert CoreInv(t, c);
    }
    forall c | 0 <= c < |t.cores| && MmuOn(t.cores[c])
      ensures RegistersSet(t.cores[c]) && t.table == Finished()
    {
      assert CoreInv(t, c);
    }
    forall va: nat | va < 0x1_0000_0000
      ensures Translate(Finished(), va) ==
                if va < 0x4000_0000 then Mapped(va, DEVICE_MEMORY, true)
                else if va < 0x8000_0000 then Mapped(va, NORMAL_MEMORY, true)
                else Fault
    {
      FinishedMaps(va);
    }
  }

  /** What a core with its MMU on gets at an address below 2 GB: device memory in the
      lower half, where the UART and the interrupt controller are, and cacheable
      memory in the upper half, by its own MAIR. */
  lemma MemoryTypes(s: State, moves: seq<Move>, c: nat, va: nat)
    requires Initial(s) && Schedule(s, moves) && c < |s.cores| && va < 0x8000_0000
    requires MmuOn(Exec(s, moves).cores[c])
    ensures var t := Exec(s, moves);
            && Translate(t.table, va).Mapped?
            && MairByte(t.cores[c].mair, Translate(t.table, va).attribute) == if va < 0x4000_0000 then 0x00 else 0xFF
  {
    hide Exec, Translate, MairByte;
    TableReadyBeforeUse(s, moves);
    MairSelects();
  }

  // ---- A core alone gets there ----

  /** Core `c` has seen the lock free and nobody took it since, or holds it. */
  predicate Ready(s: State, c: nat)
    requires c < |s.cores|
  {
    var core := s.cores[c];
    match core.pc
    case LoadLock => s.lock == 0
    case TestLock(v) => s.lock == 0 && v == 0 && core.armed
    case StoreLock => s.lock == 0 && core.armed
    case Hang => false
    case Done => true
    case _ => s.owner == c
  }

  /** More than the number of steps to the end. */
  function Rank(pc: Pc): nat {
    match pc
    case LoadLock => 600
    case TestLock(_) => 599
    case StoreLock => 598
    case TestStored(_) => 597
    case CheckInit => 596
    case ZeroEntry(k) => if k < 512 then 590 - k else 0
    case FillDevice => 9
    case FillNormal => 8
    case MarkBuilt => 7
    case SetTtbr => 6
    case SetMair => 5
    case SetTcr => 4
    case CheckTcr => 3
    case TurnOn => 2
    case Unlock => 1
    case Done => 0
    case Hang => 0
  }

  lemma ReadyAdvances(s: State, c: nat)
    requires Inv(s) && c < |s.cores| && Ready(s, c) && !s.cores[c].pc.Done?
    ensures Nearer(s, c, Step(s, c, Run))
  {
    hide LockStep, BuildStep, RegisterStep, Nearer;
    assert s.cores[c].pc != Hang && |s.table| == ENTRIES && CoreInv(s, c);
    if Locking(s.cores[c].pc) {
      LockAdvances(s, c);
    } else if Building(s.cores[c].pc) {
      BuildAdvances(s, c);
    } else {
      RegisterAdvances(s, c);
    }
  }

  predicate Nearer(s: State, c: nat, t: State)
    requires c < |s.cores|
  {
    c < |t.cores| && Ready(t, c) && Rank(t.cores[c].pc) < Rank(s.cores[c].pc)
  }

  lemma LockAdvances(s: State, c: nat)
    requires Inv(s) && c < |s.cores| && Ready(s, c) && Locking(s.cores[c].pc)
    ensures Nearer(s, c, LockStep(s, c))
  {
    hide Finished, Progress;
    assert CoreInv(s, c);
  }

  lemma BuildAdvances(s: State, c: nat)
    requires Inv(s) && c < |s.cores| && Ready(s, c) && Building(s.cores[c].pc)
    ensures Nearer(s, c, BuildStep(s, c))
  {
    hide Finished;
    assert CoreInv(s, c);
  }

  lemma RegisterAdvances(s: State, c: nat)
    requires c < |s.cores| && Ready(s, c) && AfterTable(s.cores[c].pc)
    ensures Nearer(s, c, RegisterStep(s, c, true))
  {
  }

  function Alone(c: nat, n: nat): (moves: seq<Move>)
    ensures |moves| == n && forall i :: 0 <= i < n ==> moves[i] == Move(c, Run)
  {
    seq(n, _ => Move(c, Run))
  }

  lemma {:induction false} ReadyFinishes(s: State, moves: seq<Move>, c: nat) returns (n: nat)
    requires Initial(s) && Schedule(s, moves) && c < |s.cores| && Ready(Exec(s, moves), c)
    ensures Schedule(s, moves + Alone(c, n))
    ensures var t := Exec(s, moves + Alone(c, n)); t.cores[c].pc.Done? && MmuOn(t.cores[c])
    decreases Rank(Exec(s, moves).cores[c].pc)
  {
    hide Step, Ready, Rank;
    var t := Exec(s, moves);
    RunKeepsInv(s, moves);
    if t.cores[c].pc.Done? {
      n := 0;
      assert moves + Alone(c, 0) == moves;
      assert CoreInv(t, c);
    } else {
      var more := moves + [Move(c, Run)];
      assert more[..|moves|] == moves;
      ReadyAdvances(t, c);
      var k := ReadyFinishes(s, more, c);
      n := k + 1;
      assert moves + Alone(c, n) == more + Alone(c, k);
    }
  }

  /** From any reachable state, a core that is at the beginning of mmu_on when the
      lock is free ends with its MMU on, if it is left alone and its TCR is accepted. */
  lemma CoreFinishesAlone(s: State, moves: seq<Move>, c: nat) returns (n: nat)
    requires Initial(s) && Schedule(s, moves) && c < |s.cores|
    requires Exec(s, moves).cores[c].pc.LoadLock? && Exec(s, moves).lock == 0
    ensures Schedule(s, moves + Alone(c, n))
    ensures var t := Exec(s, moves + Alone(c, n)); t.cores[c].pc.Done? && MmuOn(t.cores[c])
  {
    hide Exec;
    n := ReadyFinishes(s, moves, c);
  }
}
