# Chiron SMP protocols and the checkers around them

The project models the multi-hart programs of the Chiron repository, the hardware buffer they lean
on, and the host-side checkers that judge the hardware, and proves what each is for.

`dafny verify dfyconfig.toml` checks everything.

| file | what it models |
|---|---|
| `Barrier.dfy` | the sense-reversing barrier, any number of harts and episodes |
| `CrossCall.dfy` | one call queue: any number of senders pushing descriptors by compare-and-swap, an msip level, and a target that swaps the list out and releases it |
| `CrossCallLockFree.dfy`, `CrossCallCounts.dfy` | that a push of that queue is held up only by another hart's progress; what it counts over every run |
| `CrossCallRun.dfy`, `CrossCallFair.dfy` | the whole cross-call program: hart 0's rounds, the targets' loops, the final barrier and the verdict; and that fair runs end |
| `CsdWait.dfy` | the arm and clear handshake without interrupts |
| `Rob.dfy` | the reorder buffer's ring with rollback and flush, and the probe that watches its rollbacks |
| `Monitor.dfy`, `MonitorProof.dfy` | the always-on monitor, and what its counters mean over every run of the reorder buffer that keeps to the port discipline, squashes included, and in the cycle after a breach |
| `RobEntry.dfy` | three ways of reading a packed reorder-buffer entry |
| `Lockstep.dfy` | repairing the golden model after a racy atomic |
| `Histo.dfy`, `Blur.dfy` | two parallel kernels and the sequential results they must equal |
| `Console.dfy` | the four-phase console input handshake |
| `Ledger.dfy` | the push and pop ledger kept over a run of the call queues |
| `Common.dfy` | an option type, powers of two, the uniqueness of division, bitwise operations and the joining of lists, shared by several models |

## How to read it

A protocol is a state, a `Step` function with one case per load, store or atomic, and `Exec`, which
runs a list of events; a theorem about every run quantifies over that list. History that no step
reads (how often a hart arrived, which descriptors the list holds) sits in the same state so that
theorems can name it. Memory is sequentially consistent. A spin loop is a step that may leave the
state unchanged, and a spin limit is a separate event that is possible whenever the loop would turn
again. Liveness is stated over lists of rounds in each of which every hart takes a step: as many
rounds as a ranking function has units suffice. msip is a level that raises a trap whenever the
target is outside its handler (section 3.1.9 of the RISC-V Privileged ISA).

Objects that the source updates in place are classes whose methods are proved equal to functions on
their abstract state (`RobFifo`, `HartMonitor`, `Harness`, `HostLoop`, `LedgerProbe`); loops over
arrays are methods with loops (`LineBlur`, `HistoKernel`, `Verify`, `WBits`). Machine integers are
natural numbers with the wrap-around written out.

## What the proofs found

- The comment in `src/main/scala/core.scala` (lines 1023-1027) relies on the rollback that comes with
  a squash to hold back the dequeue. With the guard now in `Fifo.scala` that rollback is taken only
  when the buffer is full (`Rob.SquashTarget`). A flush in a cycle that also dequeues leaves the
  write pointer one slot behind the read pointer, and the next entry makes the buffer full
  (`Rob.FlushWithDequeue`, an equivalence). Refinement holds in every other cycle. The core presents
  that input when the squashed load, found not coherent (line 809), is free to commit in the next
  cycle, the one of the broadcast: by lines 996-998 its `loadCommit.state` must have turned meanwhile.
  Whether the memory unit can do that is not part of this model.
- A squash drives the branch port too: a failed resolution of the slot before the head
  (`src/main/scala/core.scala`, lines 812-813, 870 and 1019-1028). The monitor takes it for a
  resolution, so it reports DOUBLE-RESOLVE for a squash exactly when the branch port had named that
  slot since its allocation, as it has when the slot held a branch, although no port misbehaved
  (`MonitorProof.Soundness`; the run in `MonitorProof.SquashReportsDouble`: a branch resolves and
  retires, and the load behind it is squashed). Its other two rules raise no false alarm.
- With the same guard, the probe still counts a rollback cycle as growth when the rollback is dropped
  and a new entry is enqueued (`Rob.GuardedGrowth`). It also counts every squash of a buffer that is
  not full as out of the window (`Rob.SquashIsDead`, `Rob.ProbeVerdict`).
- `count = 0` must precede `sense = threadsense` for progress: with the two stores swapped, two harts
  reach a state that neither can ever leave (`Barrier.SwappedStoresStick`).
- Undoing a store-conditional writes the captured dword back whole, so it erases every store another
  hart made to that dword in between: it is right for all contents exactly when there was none
  (`Lockstep.UndoErasesStores`).
- `line_blur` is the three-cell average for every content exactly when the line is empty or has 2 to
  256 cells: at cell 256 the `uint8_t` index wraps and hits the wrong slot (`Blur.LineExact`).
- The comments of `linux_sim.cpp` and `quard_uart.scala` promise that a byte is taken exactly once.
  `hostInputConsumed` is `hostTaken` or the current cycle's pop, so a host that samples a pop before
  its clock edge withdraws the byte and loses it, and two ports that pop at the same edge both get
  it. Exactly-once delivery holds if and only if neither happens (`Console.RunExact`).
- The ledger's `live` count is cleared by the next pop that takes a chain, so it shows a lost push
  only until then (`Ledger.LiveIs`).
- `histo_kernel` does not clear its private bins: it merges whatever they held before
  (`Histo.HistoKernel`). The benchmark is right because they start at zero and it runs once.

## Model

| member | source | states |
|---|---|---|
| Barrier.Safety | workloads/benchmarks/common/util.h:85-112 | for every number of harts and every interleaving of any number of episodes, nobody returns from a k-th call before all have arrived at theirs, the calls of two harts differ by at most one, and the counter stays within 0 and nc |
| Barrier.StepInv | workloads/benchmarks/common/util.h:95-101 | every access of a hart inside or outside the barrier keeps the invariant from which safety and progress follow |
| Barrier.SwappedStoresStick | workloads/benchmarks/common/util.h:98-100 | with the two stores of the last hart swapped there is a run of two harts after which no step of either changes anything, each waiting in its second call |
| Barrier.NoMissedRelease | workloads/benchmarks/common/util.h:104-108 | once a spinner's sense has come, no run of the other harts, however long, takes it away before the spinner looks |
| Barrier.NotStuck | workloads/benchmarks/common/util.h:85-112 | while some hart owes its k-th return, one that owes it can move |
| Barrier.FairCompletion | workloads/benchmarks/common/util.h:85-112 | from any reachable state, as many fair rounds as steps remain bring every hart out of its k-th call |
| Barrier.Termination | workloads/benchmarks/common/util.h:85-112 | k calls by nc harts end within 4k nc fair rounds |
| CrossCall.NoLostWakeup | workloads/benchmarks/mt-crosscall/mt-crosscall.c:165-170 | in every reachable state a non-empty list has a sender about to ring, msip set, or a handler that has not yet swapped |
| CrossCall.Ownership | workloads/benchmarks/mt-crosscall/mt-crosscall.c:181-190 | the list is a finite chain of exactly the descriptors published since the last swap; a locked descriptor is in exactly one place and a clear one in none; publications are releases plus what is queued or held |
| CrossCall.HandlerTouchesOnlyHeld | workloads/benchmarks/mt-crosscall/mt-crosscall.c:91-101 | the handler reads and clears only locked descriptors it holds, never one it has released |
| CrossCall.PublishInv | workloads/benchmarks/mt-crosscall/mt-crosscall.c:184-188 | a successful compare-and-swap keeps the chain whatever happened since the head was read: reuse of the head's value is harmless |
| CrossCallLockFree.FailedSwap | workloads/benchmarks/mt-crosscall/mt-crosscall.c:183-189 | in every run of any number of senders, a compare-and-swap about to fail has been overtaken since its own head load by another sender's publication or by the target taking the list |
| CrossCall.StepInv | workloads/benchmarks/mt-crosscall/mt-crosscall.c:88-190 | every access of a sender or of the target keeps the invariant |
| CrossCallCounts.ServedCount | workloads/benchmarks/mt-crosscall/mt-crosscall.c:97-99 | the served counter is the number of releases, one step late, over every run |
| CrossCallCounts.NoRingNoTrap | workloads/benchmarks/mt-crosscall/mt-crosscall.c:104-132 | until a sender acts, the target's steps change nothing |
| CrossCall.DrainsAlone | workloads/benchmarks/mt-crosscall/mt-crosscall.c:88-134 | once every sender has rung, the target alone reaches an empty list, a low msip and clear flags in exactly the number of steps the cost function gives |
| CrossCall.NeverStranded | workloads/benchmarks/mt-crosscall/mt-crosscall.c:88-134 | from any reachable state in which the senders are done, no flag stays set |
| CrossCallRun.StepInv | workloads/benchmarks/mt-crosscall/mt-crosscall.c:212-245 | the stages of hart 0, the queues, the targets' loops and the barrier stay in step through every event, timeouts and interrupts included |
| CrossCallRun.Verdict | workloads/benchmarks/mt-crosscall/mt-crosscall.c:212-252 | past the final barrier the verdict is positive if and only if hart 0 never timed out, and then every target recorded all rounds |
| CrossCallRun.Blamed | workloads/benchmarks/mt-crosscall/mt-crosscall.c:221-227 | over every run the hart marked as failed is the one hart 0 was waiting for, its flag still set, when it gave up; nobody else is marked, and somebody is if hart 0 gave up |
| CrossCallRun.ServedDuringWait | workloads/benchmarks/mt-crosscall/mt-crosscall.c:221-228 | while hart 0 waits in round r, a target whose flag it has seen clear has served r calls, or r - 1 with the increment to come |
| CrossCallFair.SendNeverFails | workloads/benchmarks/mt-crosscall/mt-crosscall.c:216-219 | with hart 0's one descriptor per queue the compare-and-swap never has to retry |
| CrossCallFair.StepProgress | workloads/benchmarks/mt-crosscall/mt-crosscall.c:212-245 | without timeouts every event leaves the state alone or lowers the rank |
| CrossCallFair.NotStuck | workloads/benchmarks/mt-crosscall/mt-crosscall.c:212-248 | while the program is not over, some hart's next access changes the state |
| CrossCallFair.Completion | workloads/benchmarks/mt-crosscall/mt-crosscall.c:212-252 | every fair run without a timeout ends with all harts out of the barrier and a positive verdict |
| CsdWait.Alternates | workloads/benchmarks/mt-csdwait/mt-csdwait.c:96-133 | arms minus clears is 0 or 1 and tells the flag, and a target's round count never differs from hart 0's by more than one, whoever gives up |
| CsdWait.Verdict | workloads/benchmarks/mt-csdwait/mt-csdwait.c:138-145 | when all are done the benchmark passes if and only if nobody gave up a wait |
| CsdWait.Blamed | workloads/benchmarks/mt-csdwait/mt-csdwait.c:108-129 | over every run a target is marked as failed if and only if hart 0 gave up waiting for it to arm its flag or it gave up waiting for the clear |
| CsdWait.NotStuck | workloads/benchmarks/mt-csdwait/mt-csdwait.c:79-87 | while nobody has given up and somebody is not done, somebody can move |
| CsdWait.MoveWork | workloads/benchmarks/mt-csdwait/mt-csdwait.c:106-132 | a move that changes anything uses up exactly one unit of work |
| CsdWait.Completes | workloads/benchmarks/mt-csdwait/mt-csdwait.c:101-133 | every fair run in which nobody gives up ends with all rounds done by all harts and as many arms as clears |
| Rob.DistanceIsMask | sim/harness/probes/robmodify_probe.cpp:84-85 | the masked pointer difference is the ring distance for every depth that divides the word size |
| Rob.EdgeRefines | src/main/scala/pipeline/Fifo.scala:119-188 | one clock edge is one step of a bounded queue: contents, head and occupancy, for every mix of enqueue, dequeue, rollback and flush but flush with dequeue |
| Rob.RunRefines | src/main/scala/pipeline/Fifo.scala:66-189 | any run of such cycles is a run of the queue, which never exceeds the depth |
| Rob.FlushWithDequeue | src/main/scala/pipeline/Fifo.scala:183-188 | after a flush the next entry is the whole content if and only if nothing was dequeued with the flush; otherwise it makes the buffer full |
| Rob.SquashTarget | src/main/scala/core.scala:1023-1028 | the rollback to the slot before the head is taken only when the buffer is full, so it blocks the dequeue only then |
| Rob.UnguardedRollback | sim/harness/probes/robmodify_probe.cpp:16-32 | without the guard a rollback leaves rel + 1 entries, never none; it grows the buffer if and only if its target is no longer live, and truncates after the branch otherwise |
| Rob.GuardedRollback | src/main/scala/pipeline/Fifo.scala:109-119 | with the guard a rollback to a dead slot is dropped and the cycle is an ordinary one |
| Rob.GuardedGrowth | sim/harness/probes/robmodify_probe.cpp:100-104 | with the guard a rollback cycle is counted as growth exactly when its target is dead, nothing is flushed, and an entry joins while none leaves |
| Rob.SquashIsDead | src/main/scala/core.scala:812-813 | the rollback of a squash names a dead slot if and only if the buffer is not full, and unguarded the squash leaves a valid, empty buffer with the same head |
| Rob.ProbeVerdict | sim/harness/probes/robmodify_probe.cpp:81-104 | over every run, squashes included and from any registers, the out-of-window rollbacks are the unguarded growths plus the dead squashes, and at least the guarded ones plus the dead squashes |
| Rob.RollbacksCounted | sim/harness/probes/robmodify_probe.cpp:100-102 | every cycle that asks for a rollback is counted once, and no more are counted out of the window |
| Rob.Watch | sim/harness/probes/robmodify_probe.cpp:65-104 | the probe's loop, sampling before and after each edge, computes the tally of the whole run |
| Rob.RobFifo.constructor | src/main/scala/pipeline/Fifo.scala:75-89 | reset leaves a valid, empty buffer |
| Rob.RobFifo.Clock | src/main/scala/pipeline/Fifo.scala:69-188 | the register updates in place are the clock edge, and step the bounded queue unless a flush meets a dequeue |
| Monitor.HartMonitor.constructor | sim/harness/invariants.h:149-187 | the fresh history |
| Monitor.HartMonitor.CheckProgress | sim/harness/invariants.h:221-233 | the progress clock, the one report per stall and its re-arming |
| Monitor.HartMonitor.CheckResolution | sim/harness/invariants.h:256-269 | a second resolution is counted, and an allocation in the same cycle clears the mark afterwards |
| Monitor.BranchesAreBFormat | sim/harness/invariants.h:283 | the opcode test accepts exactly the words of the conditional-branch format, whatever their offset, registers and funct3 |
| Monitor.BranchesByOpcode | sim/harness/invariants.h:283 | and of the words of any format only those with the BRANCH opcode: no load, store, ALU operation, JAL or JALR |
| Monitor.HartMonitor.CheckBranch | sim/harness/invariants.h:272-294 | a conditional branch that became ready is counted and attributed as the rule says |
| Monitor.HartMonitor.CheckWindow | sim/harness/invariants.h:307-311 | a slot that became ready outside both windows is counted |
| Monitor.HartMonitor.CheckSlot | sim/harness/invariants.h:272-350 | one slot adds its counts and its ready bit is remembered |
| Monitor.HartMonitor.CheckSlots | sim/harness/invariants.h:271-351 | the walk adds what the slots add and remembers all ready bits |
| Monitor.HartMonitor.Check | sim/harness/invariants.h:217-364 | the whole new history is that of the specification of one check |
| MonitorProof.Soundness | sim/harness/invariants.h:256-364 | over every run from reset in which ports ready only live non-branch slots, an allocation resolves at most once and squashes use the branch port as the core does, no branch is counted as readied without its resolution and no slot as readied outside the window, whatever retires or rolls back in the same cycles, and the double resolutions counted are exactly the squashes whose slot before the head the branch port had named since its allocation |
| MonitorProof.SquashReportsDouble | src/main/scala/core.scala:812-813 | a run from reset in which no port misbehaves and the monitor counts a double resolution |
| MonitorProof.ResolutionSound | sim/harness/invariants.h:258-264 | in a cycle that keeps to the discipline a double resolution is counted if and only if it is such a squash |
| MonitorProof.NamedKept | src/main/scala/core.scala:1019-1028 | a squash empties the buffer whose slot it names, so on live slots the branch port has been used by resolutions only |
| MonitorProof.SlotSound | sim/harness/invariants.h:271-347 | a disciplined cycle, a squash included, makes no slot count in the next one, even when the window moved |
| MonitorProof.NotRevived | sim/harness/invariants.h:300-306 | a slot outside the buffer stays outside over a clock edge unless it is the one allocated |
| MonitorProof.StaleWriteCounted | sim/harness/invariants.h:207-215 | a write that readies an unallocated slot is counted in the next cycle if and only if the pointers differ in both cycles |
| MonitorProof.BranchWriteCounted | sim/harness/invariants.h:278-286 | a port that readies a slot holding a word of the conditional-branch format is counted if and only if the branch neither resolved nor was allocated in that cycle |
| MonitorProof.Attributed | sim/harness/invariants.h:275-286 | the ALU port is blamed for the offending slot it named, the multiplier's for the one it named unless the ALU named it too |
| MonitorProof.FirstCheckJudges | sim/harness/invariants.h:149-187 | whenever the monitor is attached, its first check takes every ready bit for a new one, and knows of no resolution or allocation |
| MonitorProof.SecondResolutionCounted | sim/harness/invariants.h:258-269 | a use of the branch port is counted as double if and only if the port had named the slot since its allocation: on a live slot, if and only if the slot had resolved |
| MonitorProof.CountedOnce | sim/harness/invariants.h:271-351 | the counters are the sizes of the sets of offending slots, and the attributions add up |
| MonitorProof.StallsReportedOnce | sim/harness/invariants.h:221-233 | over every sequence of samples the stall counter is the number of stretches of equal read pointers that outlast the limit |
| RobEntry.WBits | sim/harness/probes/robhead_probe.cpp:45-52 | the bit loop returns bits lo to lo + len - 1 of the number the words hold |
| RobEntry.InsnOf | sim/harness/invariants.h:197-205 | the monitor's loop returns the instruction field |
| RobEntry.MaskedInsnIs | sim/harness/probes/linux_robjam_probe.cpp:217-219 | on any four words the shift and mask decode is the instruction field |
| RobEntry.MaskedPcIs | sim/harness/probes/linux_robjam_probe.cpp:220-222 | on any four words the shift and mask decode is the pc field |
| RobEntry.DecodersInvertPacking | sim/harness/probes/linux_robjam_probe.cpp:205-222 | for every pc, instruction and destination, all decoders return what was packed |
| RobEntry.PackingInvertsDecoders | sim/harness/probes/linux_robjam_probe.cpp:205-222 | packing what was decoded gives back the lowest 102 bits of any words |
| Common.BitwiseBit | sim/harness/lockstep_quad.cpp:87-89 | every bit of an xor, or, and is the operands' bits' sum modulo 2, sum less product, product |
| Lockstep.WordAmoExact | sim/harness/lockstep_quad.cpp:80-104 | for all operations and operands a word AMO computed in 64 bits and spliced writes exactly the 32-bit result and leaves the other word alone |
| Lockstep.SpliceHalves | sim/harness/lockstep_quad.cpp:98-104 | at a multiple of eight the low word is replaced, four beyond it the high one |
| Lockstep.SpliceBytes | sim/harness/lockstep_quad.cpp:98-104 | splicing at a naturally aligned address replaces exactly the bytes of that address in little-endian memory |
| Lockstep.SpliceIsStore | sim/harness/lockstep_quad.cpp:98-104 | and so is a store of that many bytes there, lowest first |
| Lockstep.AlignedIs | sim/harness/lockstep_quad.cpp:145 | the dword worked on is the one that contains the address |
| Lockstep.AmoLong | sim/harness/lockstep_quad.cpp:80-96 | on 8-byte operands every operation gives the 64-bit result of the instruction set |
| Lockstep.SextOrder | sim/harness/lockstep_quad.cpp:82-93 | sign extension keeps the signed value and the unsigned order |
| Lockstep.ReconcileExact | sim/harness/lockstep_quad.cpp:199-219 | with no store in between, memory ends as if the operation had run with the RTL's outcome; the outcome being the instruction set's on words of 32 or 64 bits; a failed SC is undone, the other word of a .w access is untouched |
| Lockstep.ReconcileSerialises | sim/harness/lockstep_quad.cpp:199-219 | with any stores in between and no undo, memory ends as some serial order with the RTL's outcome: after the stores if the repair writes, before them otherwise |
| Lockstep.UndoErasesStores | sim/harness/lockstep_quad.cpp:211-213 | undoing an SC keeps the other harts' stores for all contents if and only if there were none |
| Lockstep.CapturedWellFormed | sim/harness/lockstep_quad.cpp:122-147 | whatever is captured is an operation the repair theorems speak about, on a register from 1 to 31 |
| Lockstep.CaptureDecodes | sim/harness/lockstep_quad.cpp:122-147 | of a load, LR, SC or AMO encoded with any registers, size, offset and ordering bits, the record holds the kind, destination, size, operation code, address, operand and old dword; of one with rd x0 or below DRAM, nothing |
| Lockstep.OthersNotCaptured | sim/harness/lockstep_quad.cpp:124-134 | no instruction of another opcode is recorded |
| Lockstep.CaptureThenReconcile | sim/harness/lockstep_quad.cpp:122-219 | for every encoded load and naturally aligned atomic and all registers: recorded unless rd is x0 or the address below DRAM, and then the repair turns what the instruction does to memory with the golden outcome into what it does with the RTL's, memory effects being the instruction set's, byte by byte |
| Lockstep.Harness.CaptureMemOp | sim/harness/lockstep_quad.cpp:122-147 | the recorded operation of one hart, the others' unchanged |
| Lockstep.Harness.WriteMem64 | sim/emulator/emulator.h:121-124 | writes the aligned dword inside DRAM and nothing outside it; a read then returns the value, and reads of other dwords are unchanged |
| Lockstep.Harness.ReconcileRacy | sim/harness/lockstep_quad.cpp:199-231 | refuses exactly the mismatching registers and then changes nothing; otherwise adopts the RTL's register and stores the repaired dword |
| Histo.HistoKernel | workloads/benchmarks/mt-histo/mt_histo.c:29-54 | the private bins grow by the slice's counts, the output bins by the private bins, both modulo 2^32; nothing else changes |
| Histo.CountLocal | workloads/benchmarks/mt-histo/mt_histo.c:35-39 | the counting loop in place, for any length, a negative one included |
| Histo.SliceSizeLeast | workloads/benchmarks/mt-histo/mt_histo.c:68 | the slice size is the least with which all harts' slices reach the end |
| Histo.SliceOnce | workloads/benchmarks/mt-histo/mt_histo.c:68-70 | every index falls into exactly one hart's slice |
| Histo.SlicesFlatten | workloads/benchmarks/mt-histo/mt_histo.c:68-75 | laid end to end the slices are the data, empty slices past the end included |
| Histo.MergeExact | workloads/benchmarks/mt-histo/mt_histo.c:35-53 | over every interleaving of counting steps and atomic additions each output bin ends as the count over all slices |
| Histo.AloneIsKernel | workloads/benchmarks/mt-histo/mt_histo.c:29-54 | a hart stepped alone from any bins leaves what `HistoKernel` is proved to leave for its slice |
| Histo.ParallelExact | workloads/benchmarks/mt-histo/mt_histo.c:66-76 | for 1 to 16 harts the output is the histogram of the data, and the bins add up to the amount of data |
| Histo.Verify | workloads/benchmarks/common/util.h:24-40 | the unrolled loop returns one more than the first differing index, or zero |
| Histo.DiffUnique | workloads/benchmarks/common/util.h:24-40 | that number is determined by the first difference |
| Histo.StepWork | workloads/benchmarks/mt-histo/mt_histo.c:35-53 | a hart before the barrier uses up one unit of work with every step, one at the barrier changes nothing |
| Histo.Completes | workloads/benchmarks/mt-histo/mt_histo.c:66-76 | every run can be carried on until all harts are at the barrier |
| Histo.VerdictExact | workloads/benchmarks/mt-histo/mt_histo.c:78-84 | the check after the barrier returns zero if and only if the expected bins are the true histogram |
| Blur.LineExact | workloads/demos/mt-fire.c:59-67 | the written line is the three-cell average with zero ends for every content if and only if it is empty or has 2 to 256 cells |
| Blur.LineBlur | workloads/demos/mt-fire.c:59-67 | the loop in place writes the line that the ring computes and nothing else |
| Blur.LineBlurred | workloads/demos/mt-fire.c:59-67 | for lines of 2 to 256 cells the line is blurred and every other cell of the image is unchanged |
| Blur.RowsAndColsTile | workloads/demos/mt-fire.c:107-118 | rows and columns each cover cells of the image without overlap |
| Blur.SplitOnce | workloads/demos/mt-fire.c:103-105 | every line falls to exactly one hart, for any number of harts |
| Blur.PassExact | workloads/demos/mt-fire.c:102-110 | one pass blurs every line as if alone, for any number of harts and any interleaving of their loads and stores |
| Blur.HartWork | workloads/demos/mt-fire.c:103-108 | a hart before the barrier uses up one unit of work with every load or store, one at the barrier changes nothing |
| Blur.Completes | workloads/demos/mt-fire.c:102-110 | every run of a pass can be carried on until all harts are at the barrier |
| Blur.TwoPasses | workloads/demos/mt-fire.c:102-120 | rows, barrier, columns is the sequential two-pass blur |
| Blur.OrderIrrelevant | workloads/demos/mt-fire.c:102-120 | two runs with different numbers of harts and different interleavings leave the same image |
| Console.HostStepIs | sim/harness/linux_sim.cpp:315-328 | exactly when a turn reads stdin; the byte read is the character offered, and an offer stands with its character until it is reported consumed |
| Console.HostLoop.Sample | sim/harness/linux_sim.cpp:315-328 | one turn of the host's loop, when it takes a byte, and that the byte is the one offered |
| Console.StepExact | src/main/scala/testbench/quard_uart.scala:463-475 | an edge or a turn keeps exactly-once delivery if and only if it is clean, and nothing restores it |
| Console.RunExact | sim/harness/linux_sim.cpp:305-328 | over every run, each byte read from stdin is taken once and in order if and only if no turn saw a pop before its edge and no edge had two; then the characters the ports got are the bytes stdin gave, up to the one on offer |
| Console.EarlyTurnLoses | src/main/scala/testbench/quard_uart.scala:475 | a turn that samples a pop before its edge loses the byte |
| Console.TwoPortsDouble | src/main/scala/testbench/quard_uart.scala:458-473 | two ports popping at one edge both take the byte |
| Console.Offering | sim/harness/linux_sim.cpp:320-328 | idle and armed, the host offers the next byte within the poll interval, however many edges lie between turns |
| Console.Rearms | sim/harness/linux_sim.cpp:315-328 | after a byte is taken, one turn and one edge re-arm the handshake and the next byte follows |
| Ledger.LedgerProbe.Observe | sim/harness/probes/linux_llist_probe.cpp:162-172 | the maps and totals after a push or a pop |
| Ledger.LiveIs | sim/harness/probes/linux_llist_probe.cpp:20-23 | over every run, lost pushes included, `live` is the list's length if and only if nothing was lost since a pop last took a chain, and on an empty queue it is positive if and only if something was |
| Ledger.BookIsHistory | sim/harness/probes/linux_llist_probe.cpp:162-171 | over every run, lost pushes included, the counters are the numbers of successful pushes, of swaps that took a chain and of swaps that found nothing, per queue and in all |
| Ledger.Independent | sim/harness/probes/linux_llist_probe.cpp:110-111 | each queue runs through its own events undisturbed by the others |
| Ledger.Conservation | sim/harness/probes/linux_llist_probe.cpp:162-171 | over every lossless run, pushes are releases plus what the handler holds plus `live`, and `live` is the length of the list |

## Left out

- Weak memory ordering, cycle timing and the liveness of LR/SC: atomics are single steps, fences are not steps.
- The race between `initialize_count_asm` and the first arrival at a barrier: the barrier starts after all harts have run it.
- Spin counts and delays: a timeout may happen at any turn of its loop, and private delay loops are not steps.
- The targets' dirty-line loop in `mt-crosscall.c`, the register saves in `cc_handler` and the optional `fence.i`: they touch no shared state of the protocol.
- CrossCall.StepInv: an interrupt is a trap that may be taken at any later step while msip is set; mstatus and mie are enabled throughout.
- Blur.PassExact: the harts' arrival at the barrier is the end of their share, the barrier itself being `Barrier.dfy`; the scroll, heat and cool phases have no sequential specification because neighbouring harts read and write the same row.
- Blur.LineBlur: the loop body is in the methods `Advance` and `Turn`, one call each a turn; the index two steps ahead is computed by the loop and handed to them.
- Histo.MergeExact: an increment of a private bin is one step, since no other hart touches that bin.
- Monitor.HartMonitor.Check: the DIAG logs, the first-cycle fields and the messages are not modelled, and cycle numbers do not wrap; `CHIRON_WEDGE_CYCLES` is a parameter.
- MonitorProof.Soundness: a flush that meets a dequeue is excluded, as it leaves the pointers meaningless; a flush without the branch port is admitted too, since lines 816-820 of `core.scala` drop the port of a squash asked for during another's broadcast; an exception's reset sets both pointers to zero.
- Lockstep.CaptureThenReconcile: SCs and AMOs are taken as naturally aligned, as the instruction set demands; `Lockstep.ReconcileExact` speaks of the record at any address.
- Lockstep: trap force-taking and the mirroring of mtime and msip depend on code outside the model.
- Console: the compiled-in ROM input, the TX side, end of file on stdin beyond "no byte now".
- CsdWait.Completes: the two barriers around the rounds are `Barrier.dfy`; the divide in the spin loop has no effect on the state.
- Ledger.LedgerProbe.Observe: the suppression of an immediately repeated PC, the ring of recent events and the hang detection are not modelled; map counters do not wrap.
- Easy members: `opname`, `clint.h`, `uart_send_integer`, the vertex, face and csaxpy splits, the profilers, all reporting and plotting.
