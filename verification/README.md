# Verified model of a four-core bare-metal kernel

This project models the hard parts of a bare-metal AArch64 kernel for four cores and proves
properties of them with Dafny. It covers streaming SHA-256 and HMAC, the spinlock and mailbox
protocol, the ring buffer, the cooperative scheduler and its context switch, the tasks that
use them, the page-table protocol at boot, and exception entry and return.

`dafny verify dfyconfig.toml` checks the whole project.

## How it is organised

- **Hashing.** `Sha256Spec` is SHA-256 as FIPS 180-4 defines it and `HmacSpec` is HMAC as
  section 2 of RFC 2104 defines it. `MerkleDamgard` iterates an arbitrary compression function
  and holds the collision arguments. `StreamingSha256` and `HmacSha256` are the C functions, on
  arrays and a struct updated in place, proved equal to those definitions. `Sha256Bits` says what
  the logical functions and sums do to bits. `RoundConstants` proves that the two constant tables
  are the roots of the first primes, and that the list of primes is complete. `Bytes` has the
  number encodings.
- **Mailboxes.** `MailboxSpec` is a mailbox whose calls happen at once. `CriticalSections` and
  `Ipc` are the code on any number of cores, one load or store per step, with the LDXR/STXR loop
  and its exclusive monitors. A schedule is any list of (core, action) pairs, so a statement
  about all schedules is a statement about all interleavings. `MailboxHistory`, `IpcTheorems`
  and `LockProgress` state the laws. `Mailbox` is the same code on the struct, with the real tag
  computation.
- **Ring buffer.** `RingBuffer` is the sequential code. `RingProtocol` is the same code shared
  by one producer and one consumer, one load or store per step.
- **Scheduling.** `Scheduler` has the operations on values and the run theorems, `SchedulerCore`
  the functions on the task pool. `ContextSwitch` has byte-addressed memory and the push, swap
  and pop of the assembly. `TaskContexts` has what a task sees of being switched out.
- **Tasks.** `Dispatcher` has the two tasks of core 0 over the ring and the scheduler,
  `MailboxDispatcher` one turn of the task of core 3.
- **Boot and exceptions.** `Mmu`, `Exceptions` and `Irq`.

`hide F;` at the top of a proof keeps the definition of `F` out of the solver's way. It makes no
assumption: the proof then relies on less.

## Where the code and its documentation differ

- `include/scheduler/scheduler.h:8-9` promises that `task_sleep_ms` suspends a task. `task_yield`
  overwrites the sleeping state with ready (`include/scheduler/scheduler.c:123`), so a sleeper
  runs again after one round. `Scheduler.SleepHonoredIff` proves that the promise is kept exactly
  for a sleep of zero.
- A message that is accepted after a receive and before the following clear is wiped
  (`include/ipc/ipc.c:86`, `include/ipc/ipc.c:169`). `MailboxHistory.NothingLostIff` gives the exact
  condition on the calls, `IpcTheorems.NothingLostIffInRuns` the same for all interleavings, and
  `MailboxHistory.SendBeforeClearIsLost` the pattern.
- The comment at `include/scheduler/scheduler.c:62` calls the slot of x30 number 11; the code
  stores to number 1, which is the one the switch loads.
- `uart_puts` puts a carriage return before each line feed (`include/uart/uart0.c:78-83`), so the
  Enter key sends two carriage returns and a line feed.

## Model

| member | source | states |
|---|---|---|
| RoundConstants.ListIsThePrimes | include/crypto/sha256.c:141-158 | the list behind the table is the primes below 312, each once and in increasing order: the first 64 primes |
| RoundConstants.RoundConstantsAreCubeRoots | include/crypto/sha256.c:141-158 | each of the 64 round constants is the first 32 fractional bits of the cube root of the prime at its place in that list |
| RoundConstants.InitialValueIsSquareRoots | include/crypto/sha256.c:49-63 | the eight initial words are the first 32 fractional bits of the square roots of the first eight primes |
| Sha256Bits.ChSelects | include/crypto/sha256.c:170 | where a bit of the first word is set the choice is the bit of the second, elsewhere that of the third |
| Sha256Bits.MajVotes | include/crypto/sha256.c:171 | where two of the words agree the majority is their bit, elsewhere the third decides |
| Sha256Bits.SumsWrap | include/crypto/sha256.c:199-202 | the sums of two and of four words are the integer sums without the bits above 31 |
| Sha256Bits.RotrMoves | include/crypto/sha256.c:160-163 | rotation by any amount moves every bit down by that many places, round the end |
| Sha256Bits.SigmasLinear | include/crypto/sha256.c:165-168 | all four sigmas respect exclusive or, so that their effect on single bits determines them |
| Sha256Bits.BigSigmaBits | include/crypto/sha256.c:165-166 | each bit reaches the three places that the standard names |
| Sha256Bits.SmallSigmaBits | include/crypto/sha256.c:167-168 | each bit reaches two places by rotation and a third by a shift, in which the lowest bits are lost |
| Sha256Bits.CompressSteps | include/crypto/sha256.c:184-220 | sixty-four rounds, each with its own constant and schedule word, and then the words are added to the chaining value |
| Sha256Bits.WordBytesRoundTrip | include/crypto/sha256.c:126-133 | four bytes read as a word, the first on top, are the bytes written for that word |
| Sha256Bits.FirstRoundOfAbc | include/crypto/sha256.c:196-203 | the first round of the one-block example published with FIPS 180-4 gives the published values |
| Sha256Bits.LastWordOfAbc | include/crypto/sha256.c:205-211 | the last schedule word of that example follows from the words it is computed from |
| MerkleDamgard.PadLength | include/crypto/sha256.c:100-124 | padding completes the message plus nine bytes to a whole number of 64-byte blocks |
| MerkleDamgard.OneOrTwoBlocks | include/crypto/sha256.c:102-124 | final compresses one block when fewer than 56 bytes are left over, and two otherwise |
| MerkleDamgard.ZeroCountLeast | include/crypto/sha256.c:102-113 | the zero fill is the shortest that leaves exactly the length field, as section 5.1.1 of FIPS 180-4 asks |
| MerkleDamgard.PadLayout | include/crypto/sha256.c:100-124 | the padded message is the message, the byte 0x80, zeros, and the bit length in the last eight bytes |
| MerkleDamgard.PadInjective | include/crypto/sha256.c:100-124 | two messages shorter than 2^64 bits with one padded form are equal |
| MerkleDamgard.BytesOfAt | include/crypto/sha256.c:126-133 | the digest has each word in order in its own four bytes |
| MerkleDamgard.WalkBack | include/crypto/sha256.c:68-88 | two different inputs of one length absorbed to one chaining value: at one and the same block the two computations compressed different inputs to one output |
| MerkleDamgard.HashCollision | include/crypto/sha256.c:68-139 | two different messages of any lengths with one digest: among the compressions of the one and those of the other are two with different inputs and one output |
| StreamingSha256.RunRound | include/crypto/sha256.c:199-203 | the shifting of the eight variables, with the sums in the order of the C code, is one round of section 6.2.2; `Sha256Bits` says what the functions in it compute |
| StreamingSha256.Accumulate | include/crypto/sha256.c:211 | the in-place sum of the oldest word, both sigmas and the seventh-last word is the schedule sum |
| StreamingSha256.WindowAdvances | include/crypto/sha256.c:205-211 | replacing one slot keeps the last sixteen schedule words in the sixteen-word window |
| StreamingSha256.FirstRounds | include/crypto/sha256.c:196-203 | after the first loop the variables are sixteen rounds on and the window holds the block |
| StreamingSha256.LastRounds | include/crypto/sha256.c:205-216 | the second loop, on the rolling window alone, completes all sixty-four rounds of the full schedule |
| StreamingSha256.CompressInto | include/crypto/sha256.c:184-220 | for every state and block, the in-place result is the compression of section 6.2.2 |
| StreamingSha256.Set | include/crypto/tc_defs.h:23-28 | fills exactly the given range and leaves the rest |
| StreamingSha256.Init | include/crypto/sha256.c:42-66 | a null state fails; otherwise the state has absorbed nothing |
| StreamingSha256.AbsorbByte | include/crypto/sha256.c:79-84 | one more byte is absorbed, whether or not it fills the buffer |
| StreamingSha256.Update | include/crypto/sha256.c:68-88 | null arguments fail; otherwise the bytes are appended to the absorbed message |
| StreamingSha256.PaddingSplits | include/crypto/sha256.c:102-121 | what final writes after the left-over bytes, in one block or two, is the padding of the message |
| StreamingSha256.StoreLength | include/crypto/sha256.c:114-121 | the eight shifted bytes are the bit count, most significant first |
| StreamingSha256.StartPadding | include/crypto/sha256.c:100-109 | after the end marker at most 56 bytes are in the buffer and only zeros and the length are missing |
| StreamingSha256.PadAndCompress | include/crypto/sha256.c:100-124 | the words are the chaining value of the whole padded message, the bit count taken modulo 2^64 |
| StreamingSha256.WriteDigest | include/crypto/sha256.c:126-133 | the words are written most significant byte first into the first 32 bytes only |
| StreamingSha256.CodeDigestIsSha256 | include/crypto/sha256.c:90-139 | for messages shorter than 2^64 bits the computed digest is that of FIPS 180-4 |
| StreamingSha256.Final | include/crypto/sha256.c:90-139 | null arguments fail; otherwise the digest of the absorbed message is written and the state is erased |
| StreamingSha256.HashPieces | include/crypto/sha256.h:46-55 | init, any number of updates and final give the SHA-256 digest of the concatenation, however it is cut |
| HmacSpec.DecodeEncode | include/crypto/hmac_sha256.c:46-69 | the sixteen authenticated bytes are sender, type, data and counter, each big-endian, and decode back to them |
| HmacSpec.KeyedTexts | include/crypto/hmac_sha256.c:71-89 | the inner text is the zero-extended key with 0x36 on each byte and then the text, the outer one the key with 0x5c and then the inner hash; a key longer than a block stands for its hash |
| HmacSpec.HmacCollision | include/crypto/hmac_sha256.c:71-89 | two texts with one HMAC under one key: both inner hashes, or both outer ones, compressed different inputs to one output |
| HmacSpec.TagCollision | include/crypto/hmac_sha256.c:38-90 | mailboxes that differ in an authenticated field but share a tag: the two tag computations gave compress different inputs on which it agrees |
| HmacSha256.KeyInit | include/crypto/hmac_sha256.c:26-36 | the stored key is the given 32 bytes |
| HmacSha256.StoreField | include/crypto/hmac_sha256.c:48-69 | four shifted bytes are the field, most significant first, and the rest of the message stays |
| HmacSha256.PadKey | include/crypto/hmac_sha256.c:71-75 | the key with 32 zero bytes is the block key of RFC 2104 |
| HmacSha256.TagCompute | include/crypto/hmac_sha256.c:38-90 | for every key and mailbox the tag is HMAC-SHA256 of the encoded fields |
| HmacSha256.TagVerify | include/crypto/hmac_sha256.c:92-104 | true if and only if all 32 stored bytes equal that tag |
| CriticalSections.EncodeByte | include/crypto/hmac_sha256.c:46-69 | each separately loaded message byte is the byte of the encoding |
| CriticalSections.SendProgresses | include/ipc/ipc.c:86-104 | after every single access of a send, memory is the partly written message it should be |
| CriticalSections.ReceiveProgresses | include/ipc/ipc.c:126-155 | after every single access of a receive, the mailbox and the values read so far agree |
| CriticalSections.ClearProgresses | include/ipc/ipc.c:169-170 | the same for clear |
| Ipc.StepKeepsLockInv | include/ipc/ipc.c:35-60 | every step of any core keeps the lock invariant: a live monitor vouches for the value its core loaded, and the holder is the core that set the word |
| Ipc.MutualExclusion | include/ipc/ipc.c:35-60 | in every reachable state of any number of cores a lock word is 1 exactly when one core is between acquire and release, never two |
| Ipc.InsideSimulates | include/ipc/ipc.c:81-172 | a step inside a critical section shows nothing, and the release shows the whole call with its answer |
| Ipc.StepRefines | include/ipc/ipc.c:81-172 | each step either changes nothing in the atomic mailboxes or is one atomic call, answered as that call |
| Ipc.RunRefines | include/ipc/ipc.c:81-172 | every interleaving refines atomic calls: all replies are those of the atomic mailboxes in order of release; `IpcTheorems.CallsAreThoseAskedFor` says which calls these are |
| IpcTheorems.WaitingSend | include/ipc/ipc.c:86-104 | a ready mailbox holds the fields of its last accepted send, since which it has only refused |
| IpcTheorems.NoTornMessage | include/ipc/ipc.c:118-159 | in every interleaving a successful receive returns exactly the fields of one completed send that nobody else took |
| IpcTheorems.HistoryTells | include/ipc/ipc.c:81-172 | the atomic history counts the sends, receipts and rejections that callers were really told |
| IpcTheorems.MessagesConserved | include/ipc/ipc.c:81-172 | in every interleaving accepted sends are receipts plus wiped messages plus one if a message waits; nothing is rejected; and a free ready mailbox carries the tag of its fields |
| IpcTheorems.NothingLostIffInRuns | include/ipc/ipc.c:81-172 | in every interleaving, every send that returned 0 has been received or waits if and only if no clear took effect after a send with only sends in between |
| IpcTheorems.CallsAreThoseAskedFor | include/ipc/ipc.c:81-172 | in every interleaving the calls a core asked for are, in order, those that returned to it and then the one under way, with the same arguments |
| LockProgress.NoCircularWait | include/ipc/ipc.c:81-172 | in every reachable state no core owns two locks, and a core that is waited for waits for nobody; the code never acquires a lock inside another, and the step that is proved is that the owner of a word is between its acquire and release |
| LockProgress.AcquiresFree | include/ipc/ipc.c:35-49 | a core that asks for a free lock holds it after three undisturbed steps |
| LockProgress.HolderReleases | include/ipc/ipc.c:55-60 | a holder that is not halting reaches its release in a bounded number of its own steps, and returns from its call |
| LockProgress.CallCompletes | include/ipc/ipc.c:81-172 | from every reachable state, a call made while the lock is free completes if it is left alone: the answer, the log and the mailbox are those of the call made at once, and the lock is free again |
| LockProgress.ConsolePrints | dispatcher/dispatcher.c:57-72 | a core with the console lock puts out all it was begun with |
| LockProgress.HaltedForever | dispatcher/dispatcher.c:57-62 | once a core halts for Ctrl+C the console lock word stays 1 in every continuation |
| LockProgress.ReleasableIff | dispatcher/dispatcher.c:52-98 | a held lock can still be released if and only if its holder is not in the Ctrl+C halt |
| MailboxHistory.Conservation | include/ipc/ipc.c:81-172 | over any calls and stray writes, accepted messages are received, rejected, wiped or waiting |
| MailboxHistory.ReadyIff | include/ipc/ipc.c:86-170 | a message waits exactly when some send has been followed by nothing but sends and stray writes |
| MailboxHistory.NothingLostIff | include/ipc/ipc.c:165-172 | every accepted message is received, rejected or waiting if and only if no clear comes after a send with only sends and stray writes in between, a condition on the calls alone |
| MailboxHistory.SendBeforeClearIsLost | include/ipc/ipc.c:86-169 | a send accepted between a receive and the clear is wiped |
| MailboxHistory.CallsAreOrderly | include/ipc/ipc.c:81-159 | received messages are an in-order subsequence of accepted ones, each at most once; counters number the accepted messages; a ready mailbox carries its tag; nothing is rejected |
| MailboxHistory.CountersIncrease | include/ipc/ipc.c:99 | counters of received messages strictly increase until 2^32 messages |
| MailboxHistory.ReceiveSucceedsIffReady | include/ipc/ipc.c:126-155 | receive returns 1 exactly when a message waits, and never takes the rejection branch |
| MailboxHistory.AlteredMessage | include/ipc/ipc.c:126-154 | a waiting message altered in an authenticated field is rejected if and only if the tags of both texts differ; if it is accepted, the two tag computations gave compress different inputs on which it agrees |
| Mailbox.MailboxStruct.constructor | include/ipc/ipc.c:66-74 | an initialised mailbox is free and empty, with sender 0xFF and counter 0 |
| Mailbox.MailboxStruct.Send | include/ipc/ipc.c:86-110 | on the struct send is the atomic send: refused exactly when the status is 1, otherwise fields, next counter, status 1 and the real tag are stored |
| Mailbox.MailboxStruct.Receive | include/ipc/ipc.c:118-158 | on the struct receive is the atomic receive: 1 exactly when the status is 1 and the tag matches, with the fields written only then, and a status of 1 becomes 2 |
| Mailbox.MailboxStruct.Clear | include/ipc/ipc.c:165-172 | on the struct clear is the atomic clear: status and type become 0 and the rest stays |
| RingBuffer.Ring.constructor | include/ringbuffer/ringbuf.c:22-25 | the ring starts empty |
| RingBuffer.Ring.Put | include/ringbuffer/ringbuf.c:34-47 | refused exactly when 255 bytes wait, otherwise the byte is queued last |
| RingBuffer.Ring.Get | include/ringbuffer/ringbuf.c:56-65 | refused exactly when nothing waits, otherwise the oldest byte is taken |
| RingProtocol.StepKeepsInv | include/ringbuffer/ringbuf.c:34-65 | every single load or store of either side keeps the sharing invariant |
| RingProtocol.BytesArriveInOrder | include/ringbuffer/ringbuf.c:34-65 | in every interleaving bytes got are a prefix of bytes put, indices stay below 256, at most 255 wait, and every unread byte is still in its slot |
| RingProtocol.RefinesFifo | include/ringbuffer/ringbuf.c:34-65 | every interleaving refines a FIFO of capacity 255: refusals happen only when it is full or empty, and the consumer is answered what took effect; the next row ties the bytes to those the callers gave |
| RingProtocol.CallsAreThoseMade | include/ringbuffer/ringbuf.c:34-65 | in every interleaving the bytes given to put are, in order, those queued or refused and then the one in hand, and every get is answered or under way |
| RingProtocol.CallsFinish | include/ringbuffer/ringbuf.c:34-65 | in every reachable state each step of a side brings its call nearer to its return, whatever the other side does: neither ever waits |
| Scheduler.PickIsFirstReady | include/scheduler/scheduler.c:93-104 | in any state the search finds the cyclically first ready task, or the current one if none is |
| Scheduler.NextIsNeighbour | include/scheduler/scheduler.c:93-104 | when all others are ready the next task is the neighbour |
| Scheduler.RoundRobin | include/scheduler/scheduler.c:75-175 | over every run of yields, sleeps and ticks all non-current tasks are ready, at most one runs, and the current index is the number of turns given up modulo the number of tasks |
| Scheduler.EveryTaskOnce | include/scheduler/scheduler.c:112-128 | from any moment of any run each task has exactly one of the next n turns, whatever sleeps and ticks occur |
| Scheduler.CurrentRuns | include/scheduler/scheduler.c:112-141 | after any run the current task is RUNNING if and only if every mark for sleep has been followed by a yield to another task |
| Scheduler.SleeperWakes | include/scheduler/scheduler.c:75-85 | a sleeper left alone becomes ready at the first tick that reaches its time |
| Scheduler.SleepTakes | include/scheduler/scheduler.c:131-141 | a task that asks to sleep is asleep until that many ticks have come, and at least one |
| Scheduler.SleeperReturns | include/scheduler/scheduler.c:131-141 | a sleeper runs again after a multiple of n turns, however long it asked for |
| Scheduler.SleepHonoredIff | include/scheduler/scheduler.h:8-9 | the promised suspension holds over all continuations if and only if the time is zero |
| SchedulerCore.Core.AddTask | include/scheduler/scheduler.c:42-65 | the new task is ready and last in the pool |
| SchedulerCore.Core.Tick | include/scheduler/scheduler.c:75-85 | the in-place loop is the tick on values, for every task of the core |
| SchedulerCore.Core.PickNext | include/scheduler/scheduler.c:93-104 | the search loop returns the cyclically first ready task, or the current one |
| SchedulerCore.Core.Yield | include/scheduler/scheduler.c:112-128 | the pool changes as the yield on values, of which the rows above tell the states, and the context is switched exactly when the current task changes |
| SchedulerCore.Core.SleepMs | include/scheduler/scheduler.c:131-141 | sleeping is the mark followed by a yield |
| SchedulerCore.Core.Run | include/scheduler/scheduler.c:150-175 | with no task the core never starts; otherwise task 0 runs and a pool of ready tasks is started |
| ContextSwitch.Machine.PushPair | src/sched.S:24-29 | one push stores two registers below the stack pointer |
| ContextSwitch.PushedFrame | src/sched.S:23-29 | the six pushes put each of x19..x30 where the pops look for it and touch nothing else |
| ContextSwitch.Machine.Switch | src/sched.S:21-47 | the old registers are in a frame that the old TCB points to, the new ones come from the frame of the new TCB, and no other byte changes |
| TaskContexts.TcbSize | include/scheduler/scheduler.h:40-48 | by the C layout rules a control block takes 2088 bytes |
| TaskContexts.PoolIsLayout | include/scheduler/scheduler.h:40-48 | the areas of the pool's tasks are apart |
| TaskContexts.SwitchParks | src/sched.S:23-33 | a task switched out is parked with its registers and stack pointer, and no other task's area changes |
| TaskContexts.SwitchRestores | src/sched.S:35-47 | a parked task gets its registers and stack pointer back |
| TaskContexts.StaysParked | src/sched.S:21-47 | a parked task stays so through any run in which the others keep out of its area |
| TaskContexts.ResumesUnchanged | src/sched.S:21-47 | between leaving and the next resumption, after any switches among any tasks, x19..x30 and the stack pointer are the same |
| TaskContexts.BuildFrame | include/scheduler/scheduler.c:59-63 | the initial frame parks the task with its entry in x30, zeros elsewhere and the stack pointer at the top |
| TaskContexts.FirstSwitch | include/scheduler/scheduler.c:53-63 | the first switch to a task lands at its entry with x19..x29 zero and an empty stack |
| Dispatcher.UartRxTurn | dispatcher/dispatcher.c:40-50 | an arrived byte is stored unless the ring is full |
| Dispatcher.ConsumerTurn | dispatcher/dispatcher.c:52-76 | the oldest byte is taken and echoed; Ctrl+C, and nothing else, halts |
| Dispatcher.PlainEcho | dispatcher/dispatcher.c:59-71 | bytes other than Ctrl+C, carriage return and line feed are echoed as they are |
| Dispatcher.EnterEcho | include/uart/uart0.c:78-83 | Enter prints two carriage returns and a line feed |
| Dispatcher.TurnKeepsInv | dispatcher/dispatcher.c:40-76 | one turn of either task keeps the joint invariant of ring, scheduler and screen |
| Dispatcher.EchoFollowsInput | dispatcher/dispatcher.c:40-76 | occupancy never exceeds its start plus one, the output is the echo of a prefix of the input, and the system halts exactly at the first Ctrl+C |
| Dispatcher.NothingRefusedIff | dispatcher/dispatcher.c:43-46 | no byte is ever refused, whatever arrives, if and only if the ring does not start full |
| Dispatcher.TurnsAlternate | dispatcher/dispatcher.c:40-76 | until the halt the two tasks take turns, and what waits at the keyboard on its turn is read |
| Dispatcher.InputIsEchoed | dispatcher/dispatcher.c:40-76 | from an empty ring, after any number of rounds, the screen shows exactly the echo of what was typed up to the first Ctrl+C, and the system is halted if and only if one was typed |
| MailboxDispatcher.AckOutcome | dispatcher/dispatcher.c:82-95 | after a turn the acknowledgement waits for the sender if and only if the sender is another core with a free mailbox, and the own mailbox is empty |
| MailboxDispatcher.AckCarries | dispatcher/dispatcher.c:92-93 | the acknowledgement has type 3, the core as its sender and in its upper half, and a 16-bit payload in the lower |
| MailboxDispatcher.NoGenuineMessage | dispatcher/dispatcher.c:82-95 | with nothing waiting a turn changes nothing, and a message with a wrong tag is only marked as processed |
| MailboxDispatcher.LoopBody | dispatcher/dispatcher.c:82-95 | the calls of one turn on the structs have exactly that effect on all mailboxes, freshly initialised ones included |
| Mmu.FinishedMaps | src/mmu.S:91-110 | the finished table maps the lower 1 GB to itself with the device attribute, the next with the normal one, both accessible and writable, and faults on the rest of the 32-bit space |
| Mmu.RegisterValues | src/mmu.S:25-29 | TCR gives a 32-bit space with 4 KB pages and no second table, the table is aligned and lies in normal memory below the kernel, and SCTLR sets the MMU and both cache bits |
| Mmu.MairSelects | src/mmu.S:21-23 | the attributes select memory type 0x00 for devices and 0xFF for normal memory |
| Mmu.StepKeepsInv | src/mmu.S:69-147 | every step of any core keeps the protocol invariant |
| Mmu.TableReadyBeforeUse | src/mmu.S:69-147 | in every reachable state at most one core has written the table, every core that is done has its MMU on, and every core with its MMU on translates by the finished table |
| Mmu.MemoryTypes | src/mmu.S:69-147 | in every reachable state a core with its MMU on gets, by its own MAIR, device memory below 1 GB and cacheable memory in the next |
| Mmu.CoreFinishesAlone | src/mmu.S:69-147 | from every reachable state a core that starts when the lock is free ends with its MMU on, if left alone and if its TCR is accepted |
| Exceptions.InterruptTransparent | src/vector.S:62-115 | if the handler keeps the stack pointer and the frame, x0..x30, SP, ELR and SPSR at eret are those of the entry |
| Exceptions.Machine.SaveRegs | src/vector.S:62-87 | the frame holds all 31 registers, SP, ELR and SPSR, laid out as exc_frame_t, and nothing else is written |
| Exceptions.FrameLayout | include/interrupts/irq.h:15-20 | the registers are in the frame where exc_frame_t has them |
| Exceptions.Machine.RestoreRegs | src/vector.S:93-115 | every register is reloaded from its place in the frame, although x10 and x11 are used on the way |
| Irq.Controller.RegisterHandler | include/interrupts/irq.c:68-73 | an id out of range is ignored; otherwise the entry is replaced and the interrupt enabled |
| Irq.EnablesOwnBit | include/interrupts/irq.c:68-73 | a registration sets exactly the enable bit of its own interrupt, and none if the id is 64 or more |
| Irq.IntIdIsLowBits | include/interrupts/irq.c:100-102 | the interrupt number is the low ten bits, and 1023 is the spurious one |
| Irq.IrqVectors | src/vector.S:40-51 | of the twelve exceptions exactly the IRQs on SPx and from a lower level are handled |
| Irq.Controller.CallHandler | include/interrupts/irq.c:104 | a called handler is logged and its own registrations change the table |
| Irq.Controller.TrapHandler | include/interrupts/irq.c:94-110 | the accesses, calls and table changes of one exception, including what the called handler registers, are those of the model that the next rows are about |
| Irq.AcknowledgesMatched | include/interrupts/irq.c:98-109 | over any run the ends of interrupt are the non-spurious acknowledges, same values and order, each after its own with only the handler in between |
| Irq.TableIsLastRegistered | include/interrupts/irq.c:68-105 | over any run of registrations and interrupts the entry of an id is the handler registered last for it, by the program or by a handler |
| Irq.DispatchesLastRegistered | include/interrupts/irq.c:94-110 | an interrupt calls the handler registered last for it, once, between acknowledge and end; with none registered it calls nothing, and a spurious one is only acknowledged |
| Irq.FatalStops | include/interrupts/irq.c:97-109 | any other exception stops the core, and nothing happens after it |

## Left out

- Weak memory, caches, WFE/SEV and barriers: steps are sequentially consistent, so what a missing barrier could reorder is not modelled.
- Liveness and timing: only progress of a core that is left alone is proved, for the locks and for `mmu_on`, and that neither side of the ring ever waits; nothing is said about fair schedules or about how long anything takes.
- The cryptographic strength of SHA-256: collisions are reduced to the compression function, not excluded.
- Console text other than the echo of core 0, the tag printed by `mailbox_receive`, UART set-up and register access: device output.
- `irq_init`, `irq_enable`, `irq_disable`, PSCI, boot code, linker scripts and tools: hardware set-up.
- The tests and the boot-time ring demonstration of cores 1 and 2: fixed scenarios, assumed finished.
- Stack overflow: a task is switched out with room for the frame on its own stack.
- The console lock around the echo of core 0: it is a console job of `Ipc` and not repeated in `Dispatcher`.
- Nested exceptions: a handler is any change of state that keeps the stack pointer and the frame; of what it does to the interrupt controller only registrations are modelled.
- `tcb_t` fields `name` and `entry`, and `dispatcher_run`: stored or dispatched without effect on the properties.
- SchedulerCore.Core.AddTask: requires room in the pool, because the code does not check for it.
- Ipc.RunRefines: a mailbox number is required to be one of the machine's, because `GET_MAILBOX` does not check it; the key does not change during a run.
- MailboxDispatcher.LoopBody: requires a waiting message to name a core with a mailbox, because the code does not check it; no other core acts between the three calls of the turn; the interleaved case is covered call by call in `Ipc`.
- TaskContexts.ResumesUnchanged: a task may write anything but the other tasks' control words and stacks.
