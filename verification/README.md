# Verified models of CHERIoT-RTOS and Ibex support code

This project models the parts of the repository whose correctness is hardest to see by
reading, and proves what they are for. Each module stands for one source file or one part of it.

| module | models | main results |
|---|---|---|
| `RingBuffer` | the blocking ring buffer, step by step, for any number of producers and consumers | FIFO delivery and slot safety over every interleaving and any number of counter wraps; when the wake-up promise holds and when it fails |
| `CosimMemory` | matching of the simulator's memory accesses against the core's bus transactions | queue discipline, conservation of accesses and exact byte coverage over every run; exactly when a check passes, for every kind of transaction |
| `CosimTraps` | trap flags and recoverable non-maskable interrupts | what the two flags mean over every history; what leaving an interrupt restores |
| `Unwind` | `setjmp`-based error handlers on an explicit cleanup list | it runs every program like structured try/catch |
| `ProcessRunner` | the memory-aware process scheduler | served order is arrival order; the memory rules of a round; exactly which processes a round ends, and what becomes of a cancelled one |
| `PropertyTree`, `ProofStrategy` | prefix grouping and the recursive strategy builder | no property is lost or duplicated between names and proofs |
| `TrustedStack` | the trusted-stack depth analyser | longest simple path, cycles reported exactly when reachable, soundness of the recommendation |
| `CapabilityBounds` | capability bounds encoding and at-most bounds | exactly which requests succeed |
| `FloatParts` | decimal decomposition of a number | value preserved to half a unit of the last kept place |
| `Revoker` | the software revoker and its 32-bit epoch test | a yes means a whole sweep and that freed objects are gone, whatever wrapped; exactly when a no is right |
| `Bitpack` | fields of a storage word | field laws, chains of updates, masked comparison |

`Basics` holds the notions several models share, `Arith` powers of two and the few division facts the
others use.

Dafny's integers are unbounded, so every 32-bit wrap is written out (`% 0x1_0000_0000`).
Clocks, processes, memory readings, engine answers, race winners, thread schedules and PMP
answers are parameters: theorems hold for all of them.

## Where the code does not do what its comments say

- **Ring buffer wake-ups** (`ring_buffer.hh:17-21`). The comment promises a wake on each
  transition to non-empty and non-full. The test and the increment are separate steps
  (lines 95-96, 120-121). `SeparateKeepsWakeIffOneSlot` shows that the promise holds on every
  schedule exactly for one-slot buffers, `StepLosesWakeIffStale` shows which step breaks it, and
  `SeparateCanDeadlock` gives, for every larger size, a run that puts both sides to sleep for good.
  With test and increment as one step, `FusedNeverLosesWake` proves the promise.
- **At-most bounds** (`cheri.hh:684-695`). A smaller representable length is not always selected:
  see `ChosenLengthIsExact` for the exact condition and `LargeRequestCanFail` for an input.
- **Grouping** (`conductor.py:495`). The comment's example puts the group before the single name;
  `PropertyTree.CommentExample` shows what the code gives. Names that end at a level come before its
  groups, so entries keep the order of first appearance exactly when no such name follows another
  (`AppearanceOrderIffEndsFirst`).
- **Float parts** (`float_to_string_helpers.hh:154-161`). The comment gives 123.045 the exponent 1;
  `FloatParts.CommentExample` shows that the code gives 123, 45 with three places, and 0. `Decompose`
  states that the exponent is zero exactly for the numbers between the thresholds.
- **Recorded failures** (`conductor.py:438`, `477`). A split cancelled after recording a failure
  leaves it in the list although the returned block proof covers it: `ProvedYetRecorded` gives such an
  outcome for every tree of two or more leaves, and `RecordedIsUnprovedIffOneLeaf` the exact condition.
- **Cancelling** (`conductor.py:98-109`). Cancelling a future is said to kill its process. A memory
  kill overwrites the request (lines 168-171, 254). `Pressed` is the guard of the kill loop over the
  sizes before the round, and `Runner.Poll` states that exactly the processes it holds of are killed
  for memory, so that a process cancelled while running is over after the round unless it holds of it;
  then the process waits with the request forgotten. `CancelledYetAlive` gives such a case.
- **Epoch distance** (`revoker.h:125-129`). The comment allows 2^31 revocations between checks.
  The epoch moves twice a revocation, so 2^30 revocations are enough for a wrong no
  (`LongSilenceAnswersNo`). A yes is never wrong (`FullAnswerIsSound`).

## Model

| member | source | states |
|---|---|---|
| `RingBuffer.WrapKeepsIndex` | cheriot-rtos/sdk/include/ring_buffer.hh:42-75 | a power-of-two size makes the slot of a wrapped counter the slot of the unwrapped count |
| `RingBuffer.TestsAreExact` | cheriot-rtos/sdk/include/ring_buffer.hh:48-75 | in a safe state the full and empty tests, the futex comparison and both slot indices agree with the true number of messages |
| `RingBuffer.StepIsSafe` | cheriot-rtos/sdk/include/ring_buffer.hh:83-128 | every single step of any thread keeps the safety invariant |
| `RingBuffer.RunIsSafe` | cheriot-rtos/sdk/include/ring_buffer.hh:83-128 | every schedule keeps it |
| `RingBuffer.FifoSafety` | cheriot-rtos/sdk/include/ring_buffer.hh:42-128 | in every reachable state what was popped is a prefix of what was pushed, occupancy is between zero and the size, no writer touches an occupied slot, and at most one thread is inside a push and one inside a pop |
| `RingBuffer.StepLosesWakeIffStale` | cheriot-rtos/sdk/include/ring_buffer.hh:95-101 | a step breaks the wake-up guarantee exactly when it increments on a stale emptiness or fullness test with a sleeper on the other side and no wake already owed |
| `RingBuffer.RunIsSound` | cheriot-rtos/sdk/include/ring_buffer.hh:83-128 | with fused steps, or with one slot, every run keeps the guarantee |
| `RingBuffer.FusedNeverLosesWake` | cheriot-rtos/sdk/include/ring_buffer.hh:83-128 | with test and increment as one step a sleeping consumer means an empty ring or an owed notify, and dually; one producer and one consumer never both sleep |
| `RingBuffer.BothAsleep` | cheriot-rtos/sdk/include/ring_buffer.hh:83-128 | under the guarantee both kinds sleeping means some thread still owes a wake, which needs a third thread |
| `RingBuffer.SeparateKeepsWakeIffOneSlot` | cheriot-rtos/sdk/include/ring_buffer.hh:17-21 | as coded, the guarantee holds on all schedules if and only if the buffer has one slot |
| `RingBuffer.SleepBehindTest` | cheriot-rtos/sdk/include/ring_buffer.hh:95-121 | for every larger size a schedule leaves a consumer asleep while a producer is about to publish without a wake |
| `RingBuffer.SeparateCanDeadlock` | cheriot-rtos/sdk/include/ring_buffer.hh:83-128 | for every larger size a schedule ends with the ring full, both sides asleep and no further step possible for any thread |
| `RingBuffer.FusedStepIsTwoSteps` | cheriot-rtos/sdk/include/ring_buffer.hh:95-96 | the fused producer step is the test and the increment with nothing in between |
| `RingBuffer.FusedPopIsTwoSteps` | cheriot-rtos/sdk/include/ring_buffer.hh:120-121 | the same for the consumer |
| `RingBuffer.Ring.constructor` | cheriot-rtos/sdk/include/ring_buffer.hh:29-46 | a new buffer is in the initial state |
| `RingBuffer.Ring.CallPush` | cheriot-rtos/sdk/include/ring_buffer.hh:83-87 | a call takes the lock and starts the push, and is refused while the thread is busy or the lock held |
| `RingBuffer.Ring.CallPop` | cheriot-rtos/sdk/include/ring_buffer.hh:107-112 | the same for a pop |
| `RingBuffer.Ring.StepProducer` | cheriot-rtos/sdk/include/ring_buffer.hh:88-102 | each later in-place step of a pusher is the step of the state machine the theorems are about |
| `RingBuffer.Ring.StepConsumer` | cheriot-rtos/sdk/include/ring_buffer.hh:113-128 | the same for a popper |
| `CosimMemory.CombinedIsDigitwise` | ibex/dv/cosim/spike_cosim.cc:969-973 | the word combined from bytes agrees with a value exactly when each byte does |
| `CosimMemory.MaskedDataIsBytewise` | ibex/dv/cosim/spike_cosim.cc:968-984 | the shifted and masked comparison holds exactly when the data agree on every byte the access touches |
| `CosimMemory.QueueAfterCheck` | ibex/dv/cosim/spike_cosim.cc:905-1051 | after a passed check the front is marked, or it leaves, alone or with its second half, and the rest of the queue is untouched |
| `CosimMemory.CheckCharges` | ibex/dv/cosim/spike_cosim.cc:879-995 | a passed check charges the access to the front: same word and kind, only its lanes, none twice, data agreeing |
| `CosimMemory.StepIsConsistent` | ibex/dv/cosim/spike_cosim.cc:660-695 | every event that records no error keeps the consistency invariant |
| `CosimMemory.RunIsConsistent` | ibex/dv/cosim/spike_cosim.cc:776-1052 | so does every run without errors |
| `CosimMemory.ErrorsOnlyGrow` | ibex/dv/cosim/spike_cosim.cc:865-1032 | no event removes a recorded error |
| `CosimMemory.RunConserves` | ibex/dv/cosim/spike_cosim.cc:776-1052 | on every run, with or without errors, the transactions that arrived are those notified, in order, and the accesses charged to the departed ones and then to the front are exactly the accesses made, in order |
| `CosimMemory.QueueDiscipline` | ibex/dv/cosim/spike_cosim.cc:776-1052 | on every run without errors, transactions leave in the order they were notified, only the front may have bytes matched, and every access of the run is charged to exactly one transaction, in order |
| `CosimMemory.MatchedExactly` | ibex/dv/cosim/spike_cosim.cc:856-1052 | a transaction that left matched had no bus error and was covered by a stretch of the run's accesses, following those of the transactions before it, with disjoint byte enables whose union is exactly its own, all of its word, kind and data |
| `CosimMemory.ErroredHonestly` | ibex/dv/cosim/spike_cosim.cc:997-1051 | a transaction reported as a bus error had one and left on exactly one access of the run, of its word and kind, within its lanes, with agreeing data if a store |
| `CosimMemory.CheckPassesIff` | ibex/dv/cosim/spike_cosim.cc:856-1052 | for every queue and access: the check passes if and only if the access is of the front transaction (word, kind, lanes, data), brings new lanes of a misaligned one or all lanes of an aligned one, and a faulting first half reaching the top byte is followed by its second half four bytes on; and what then leaves the queue |
| `CosimMemory.CheckFailsWith` | ibex/dv/cosim/spike_cosim.cc:856-1052 | for every queue and access: a check fails exactly when it records an error; it records at most one, and which one is fixed by the front and the access in the order of the tests; a failed check removes nothing, and marks lanes exactly when a misaligned transaction's lanes were accepted before the data or the second half was refused |
| `CosimMemory.FixupIff` | ibex/dv/cosim/spike_cosim.cc:660-695 | an access fault drops the front exactly when it is a second half whose first half saw an error and PMP lets it pass; if PMP refuses, that is an error; otherwise nothing changes |
| `CosimMemory.LeavesFor` | ibex/dv/cosim/spike_cosim.cc:424-428 | what leaves at each event and why: the interrupt's transaction, the second half the simulator never attempted, or on an access the front as matched or errored by its own error bit; nothing else leaves |
| `CosimMemory.ByteEnableIsMask` | ibex/dv/cosim/spike_cosim.cc:902-903 | the lanes are the bits of a run of ones as long as the access, shifted to its offset in the word |
| `CosimMemory.AlignedIsWord` | ibex/dv/cosim/spike_cosim.cc:879-881 | the aligned address is the word holding the access |
| `CosimMemory.CoverStep` | ibex/dv/cosim/spike_cosim.cc:909-963 | one access of an exact cover passes and leaves the rest of the cover to be seen |
| `CosimMemory.ExactCoverPasses` | ibex/dv/cosim/spike_cosim.cc:909-1051 | any exact cover of a transaction without a bus error passes without error, in any order, and removes it; an aligned one is covered by one access |
| `CosimMemory.Checker.NotifyDsideAccess` | ibex/dv/cosim/spike_cosim.cc:776-782 | the transaction joins the back of the queue with nothing matched |
| `CosimMemory.Checker.CombineBytes` | ibex/dv/cosim/spike_cosim.cc:969-973 | the loop computes the combined word |
| `CosimMemory.Checker.MatchFront` | ibex/dv/cosim/spike_cosim.cc:874-1052 | the in-place check has the queue, result and errors of the specification, which `CheckPassesIff` and `CheckFailsWith` fix for every queue and access |
| `CosimMemory.Checker.CheckMemAccess` | ibex/dv/cosim/spike_cosim.cc:856-1052 | the check is the access event of the state machine, with the result of the specification |
| `CosimMemory.Checker.MisalignedPmpFixup` | ibex/dv/cosim/spike_cosim.cc:660-695 | the fixup is the access-fault event: it drops only a second half whose first half saw an error and that passes PMP |
| `CosimMemory.Checker.DropInternalNmi` | ibex/dv/cosim/spike_cosim.cc:424-428 | an internal interrupt removes the front transaction |
| `CosimTraps.FlagLenses` | ibex/dv/cosim/spike_cosim.cc:546-566 | in bits: writing sync_exc_seen changes bit 6 and writing double_fault_seen bit 7, and of the nine control bits no other |
| `CosimTraps.StatusLenses` | ibex/dv/cosim/spike_cosim.cc:520-523 | in bits: restoring MPP and MPIE takes bits 12, 11 and 7 of mstatus from the saved one and the rest from the current one (section 3.1.6 of the RISC-V Privileged Architecture) |
| `CosimTraps.RunMovesFlags` | ibex/dv/cosim/spike_cosim.cc:277-299 | over every history the two bits follow a two-flag automaton |
| `CosimTraps.SyncFlagIsOpenTrap` | ibex/dv/cosim/spike_cosim.cc:537-559 | over every history from a clear flag, bit 6 of cpuctrlsts is set exactly when some non-debug trap has no later mret |
| `CosimTraps.DoubleFaultFlagIsNesting` | ibex/dv/cosim/spike_cosim.cc:537-566 | over every history from clear flags, bit 7 is set exactly when two such traps had no mret between them |
| `CosimTraps.DoubleFaultIsSticky` | ibex/dv/cosim/spike_cosim.cc:561-566 | once set it stays set over every history |
| `CosimTraps.ControlBitsStay` | ibex/dv/cosim/spike_cosim.cc:546-566 | over every history the other seven control bits keep their values and the unused bits stay clear |
| `CosimTraps.InterruptTaken` | ibex/dv/cosim/spike_cosim.cc:697-729 | an interrupt is taken exactly outside interrupt and debug mode and with no halt requested; it saves mepc and mcause, and otherwise nothing changes |
| `CosimTraps.InterruptModeIff` | ibex/dv/cosim/spike_cosim.cc:292-299 | over every history the hart is in interrupt mode exactly when some interrupt, unmasked by debug mode or a halt request, has no later mret |
| `CosimTraps.SavedAtEntry` | ibex/dv/cosim/spike_cosim.cc:697-729 | in interrupt mode the saved state is that at the latest accepted entry, whatever happened since |
| `CosimTraps.MretRestores` | ibex/dv/cosim/spike_cosim.cc:517-535 | leaving takes bits 12, 11 and 7 of mstatus, mepc and mcause from the moment of the save and leaves every other status bit as it is |
| `CosimTraps.ReturnRestoresEntry` | ibex/dv/cosim/spike_cosim.cc:292-299 | over every history the first mret in interrupt mode restores those bits and both registers as they were at the latest entry |
| `CosimTraps.TrapState.ChangeSyncExcSeen` | ibex/dv/cosim/spike_cosim.cc:546-559 | the flag is replaced and its old value returned |
| `CosimTraps.TrapState.HandleExceptionEntry` | ibex/dv/cosim/spike_cosim.cc:537-544 | the in-place entry is the trap event |
| `CosimTraps.TrapState.SetNmi` | ibex/dv/cosim/spike_cosim.cc:697-729 | asserted, the in-place entry is the interrupt event, refused in interrupt mode, debug mode or on a halt request; not asserted, nothing changes |
| `CosimTraps.TrapState.LeaveNmiMode` | ibex/dv/cosim/spike_cosim.cc:517-535 | the four saved fields return and interrupt mode ends |
| `CosimTraps.TrapState.RetireMret` | ibex/dv/cosim/spike_cosim.cc:292-299 | retiring mret is the mret event |
| `Unwind.SeqRefines` | cheriot-rtos/sdk/include/unwind.h:63-110 | a sequence on the cleanup list behaves like the sequence |
| `Unwind.DuringRefines` | cheriot-rtos/sdk/include/unwind.h:84-110 | a block behaves like try/catch and restores the list head on both exits |
| `Unwind.HandlerRefines` | cheriot-rtos/sdk/include/unwind.h:97-110 | a handler runs with its own entry already gone, so its throws go outward |
| `Unwind.DeeperThrow` | cheriot-rtos/sdk/include/unwind.h:63-70 | what a throw does depends only on the list head, not on the frames above the handler |
| `Unwind.Refines` | cheriot-rtos/sdk/include/unwind.h:63-110 | from any stack and list head, every program reaches the outcome of its try/catch meaning with the head it started with |
| `Unwind.RunsLikeTryCatch` | cheriot-rtos/sdk/include/unwind.h:63-127 | a whole program ends, for good, with the try/catch result: normally with an empty list, or faulted with the list empty and the state at the uncaught throw |
| `Unwind.Invocation.EnterBlock` | cheriot-rtos/sdk/include/unwind.h:84-91 | entering pushes an entry that remembers the old head |
| `Unwind.Invocation.ExitBlock` | cheriot-rtos/sdk/include/unwind.h:97-110 | leaving drops the block and, on the normal way out, unlinks its entry |
| `Unwind.Invocation.Unwind` | cheriot-rtos/sdk/include/unwind.h:63-70 | the unwinder pops the head entry and lands in its frame, or faults on an empty list |
| `Unwind.Invocation.EnterHandler` | cheriot-rtos/sdk/include/unwind.h:99-102 | the second return of setjmp starts the handler |
| `Unwind.Invocation.Advance` | cheriot-rtos/sdk/include/unwind.h:63-110 | the in-place machine takes exactly the steps the theorems are about |
| `ProcessRunner.Process.constructor` | ibex/dv/formal/conductor.py:137-154 | a new process has the demand and timeout asked for, no kill request, a waiting future and no size |
| `ProcessRunner.Process.Cancel` | ibex/dv/formal/conductor.py:98-109 | cancelling requests a kill and cancels a waiting future |
| `ProcessRunner.Process.Poll` | ibex/dv/formal/conductor.py:173-216 | a process is over exactly on an unrequested exit, a request or a timeout; the waiting caller is then told the exit code if it exited unasked, else a timeout if that passed, else that nobody is interested; a restart raises its demand and keeps its future; a cancelled future is never resolved |
| `ProcessRunner.Runner.constructor` | ibex/dv/formal/conductor.py:222-231 | the runner starts empty and valid |
| `ProcessRunner.Runner.Append` | ibex/dv/formal/conductor.py:235-236 | a submission comes last in the served order |
| `ProcessRunner.Runner.CancelProcess` | ibex/dv/formal/conductor.py:98-109 | cancelling requests the kill and cancels the future, and changes neither the order nor the lists |
| `ProcessRunner.Runner.RestartLast` | ibex/dv/formal/conductor.py:253-257 | a memory kill moves the newest running process to the front of the waiting ones, keeps the order and its future, drops any request it had, and raises its demand to the larger of its recorded size and the size seen by the last poll |
| `ProcessRunner.Runner.KillForMemory` | ibex/dv/formal/conductor.py:250-257 | the loop kills a suffix of the running processes, never the oldest, polling each once, keeps the order, and ends with enough memory or one process |
| `ProcessRunner.Runner.StartPending` | ibex/dv/formal/conductor.py:259-265 | the loop starts a prefix of the waiting processes within the cap, forgetting their sizes, starts some exactly when the test allows, and leaves more than the buffer less three gigabytes |
| `ProcessRunner.Runner.PollOne` | ibex/dv/formal/conductor.py:270-273 | a polled process leaves the running list exactly when it is over, and its caller is told why |
| `ProcessRunner.Runner.DropFinished` | ibex/dv/formal/conductor.py:267-273 | every running process is polled once, exactly those that are over leave, their callers are told by the observation of that poll, and no request changes |
| `ProcessRunner.Runner.DropAndSettle` | ibex/dv/formal/conductor.py:267-273 | the same in terms of what was known before the round: the request, future, size and demand of every process after the drop loop |
| `ProcessRunner.Runner.UsedMemoryAdds` | ibex/dv/formal/conductor.py:241-242 | the memory used by one process is its largest size seen, and by several the sum |
| `ProcessRunner.Runner.MemoryAvailableIsSmaller` | ibex/dv/formal/conductor.py:244-247 | without a limit the memory available is what the machine has free; under one it is the smaller of that and what is left of the limit, at least zero |
| `ProcessRunner.StopsUnderPressure` | ibex/dv/formal/conductor.py:252-255 | where the kill loop stops, exactly the processes under pressure have been killed: those after the first for which the memory free once every younger one is gone is below the buffer |
| `ProcessRunner.Runner.KillMeasured` | ibex/dv/formal/conductor.py:250-257 | process i is killed if and only if it is under pressure before the round; the memory then reckoned free is what was available and, for each process killed, its size or three gigabytes if larger; each is polled once, youngest first |
| `ProcessRunner.Runner.KillStep` | ibex/dv/formal/conductor.py:250-257 | the same, with what it makes of the request, future, size and demand of every process: the killed are restarted, nobody else changes; the oldest killed one is next, and may start exactly when the memory reckoned free exceeds its demand raised to its peak |
| `ProcessRunner.Runner.StartStep` | ibex/dv/formal/conductor.py:259-265 | something starts exactly when the test allows, the memory left is what was available less what was started, and exactly the started processes have their sizes forgotten |
| `ProcessRunner.Runner.Reschedule` | ibex/dv/formal/conductor.py:249-265 | who is killed, fixed by the state before the round; after killing, something starts exactly when the memory then reckoned free exceeds the raised demand of the oldest killed process, never when that one peaked, in its record or its last poll, at three gigabytes; starting leaves more than the buffer less three |
| `ProcessRunner.Runner.Poll` | ibex/dv/formal/conductor.py:249-273 | a round keeps running followed by waiting equal to arrival order without the finished, within the cap; exactly the processes under pressure are killed for memory, never the oldest; a process is over afterwards exactly if it ran and exited, timed out or still had a request, and the future of every process after the round follows from what was known before and the observations; a cancelled running process is over unless it was under pressure, and if it was and is not started at once it is not; the three-gigabyte rule, the start condition and the memory left |
| `ProcessRunner.CancelledYetAlive` | ibex/dv/formal/conductor.py:168-171 | with two processes running and no memory left, the cancelled second one is not over after the round and its request is gone |
| `PropertyTree.BucketIsSmaller` | ibex/dv/formal/conductor.py:502-517 | each bucket has fewer chunks than the list, so grouping ends; a key has a bucket exactly when it occurs |
| `PropertyTree.KeysDistinct` | ibex/dv/formal/conductor.py:508-512 | bucket keys do not repeat |
| `PropertyTree.Partition` | ibex/dv/formal/conductor.py:505-511 | the finished names and the buckets together hold each name exactly as often as it was given |
| `PropertyTree.GroupPermutes` | ibex/dv/formal/conductor.py:502-520 | the leaves of the grouping are a permutation of the names |
| `PropertyTree.GroupShaped` | ibex/dv/formal/conductor.py:502-520 | at every level the leaves end there and each group extends the path by its own, distinct, next chunk |
| `PropertyTree.ShapedShares` | ibex/dv/formal/conductor.py:512-516 | all names in a nested group share the chunks leading to it |
| `PropertyTree.GroupLeavesFirst` | ibex/dv/formal/conductor.py:502-517 | the names that end at a level come before its groups |
| `PropertyTree.AppearanceOrderIffEndsFirst` | ibex/dv/formal/conductor.py:495-517 | the entries come out in order of first appearance if and only if no name that ends at this level follows one that does not |
| `PropertyTree.CommentExample` | ibex/dv/formal/conductor.py:495-495 | a_x, a_y, b give b first and then the group |
| `PropertyTree.FillBuckets` | ibex/dv/formal/conductor.py:503-511 | the loop fills the buckets in first-occurrence order |
| `PropertyTree.GroupItems` | ibex/dv/formal/conductor.py:502-517 | the loops compute the grouping |
| `ProofStrategy.Explore` | ibex/dv/formal/conductor.py:371-380 | the race yields a deciding answer of an allowed engine, and none exactly when no engine decided |
| `ProofStrategy.ExploreDecides` | ibex/dv/formal/conductor.py:371-380 | the winner is an engine whose code was 10 or 20, with that code, and there is none exactly when no engine's code was; the second engine alone takes part in a difficult race |
| `ProofStrategy.PartsAreSmaller` | ibex/dv/formal/conductor.py:453-471 | splitting two or more entries makes progress |
| `ProofStrategy.PartsKeepLeaves` | ibex/dv/formal/conductor.py:453-471 | splitting keeps every leaf |
| `ProofStrategy.SettleAccounts` | ibex/dv/formal/conductor.py:444-479 | whichever side wins the race the books balance |
| `ProofStrategy.BuildAccounts` | ibex/dv/formal/conductor.py:393-479 | for every tree, answers and race outcomes, building ends; every strategy has exit code 20 from an allowed engine; each leaf, counted as often as it occurs, is proved, unproved or refuted alone, exactly once |
| `ProofStrategy.StrategiesDisjoint` | ibex/dv/formal/conductor.py:393-479 | with distinct leaves two returned strategies share no property |
| `ProofStrategy.EveryLeafAnswered` | ibex/dv/formal/conductor.py:393-479 | each leaf is in a proof, recorded as a failure, or refuted alone |
| `ProofStrategy.NamesToProofs` | ibex/dv/formal/conductor.py:676-698 | grouping by prefixes and then building accounts for every name |
| `ProofStrategy.SilentFailsAll` | ibex/dv/formal/conductor.py:422-439 | when no engine answers, exactly the leaves are recorded |
| `ProofStrategy.LonePropertyDecided` | ibex/dv/formal/conductor.py:422-439 | for one property and every answer: no decision records it as a failure, a proof returns one strategy of the deciding engine and records nothing, a refutation returns and records nothing |
| `ProofStrategy.ProvedAll` | ibex/dv/formal/conductor.py:422-479 | if every engine that decides proves, then for every tree and every race nothing is recorded, unproved or refuted |
| `ProofStrategy.RefutedAll` | ibex/dv/formal/conductor.py:422-479 | if every engine that decides refutes, nothing is returned or recorded and exactly the leaves are refuted |
| `ProofStrategy.BlockTakesAll` | ibex/dv/formal/conductor.py:444-449 | where the block is proved before the split ends, one strategy proves all the leaves, in order |
| `ProofStrategy.SplitGivesBlocks` | ibex/dv/formal/conductor.py:453-475 | where the split ends first and the blocks below win, the strategies are one per group, in order, and one for the bare names; without groups, one per name |
| `ProofStrategy.ProvedYetRecorded` | ibex/dv/formal/conductor.py:444-479 | for every tree of two or more leaves some outcome records all of them as failures and returns one strategy, of exit code 20, for exactly all of them, with none refuted |
| `ProofStrategy.RecordedIsUnprovedIffOneLeaf` | ibex/dv/formal/conductor.py:422-479 | no property is both in the failure list and in a returned strategy, whatever happens, if and only if the tree has at most one leaf; the same for the list being exactly the unproved properties |
| `TrustedStack.Targets` | scripts/analyze_trusted_stack.py:62-72 | the targets are exactly the imported exports of known compartments |
| `TrustedStack.BuildGraph` | scripts/analyze_trusted_stack.py:53-74 | an edge exists exactly where a compartment imports an export of a known one |
| `TrustedStack.Search.Close` | scripts/analyze_trusted_stack.py:106-109 | a step back onto the path adds exactly the cycle it closes |
| `TrustedStack.Search.Follow` | scripts/analyze_trusted_stack.py:105-110 | following a target adds exactly the paths and cycles through it |
| `TrustedStack.Search.Visit` | scripts/analyze_trusted_stack.py:99-110 | a visit ends, with a path no shorter than any simple extension and exactly the cycles below |
| `TrustedStack.LongestSimplePath` | scripts/analyze_trusted_stack.py:95-113 | for every finite graph and root, a longest simple path from the root and exactly the cycles closed by simple paths |
| `TrustedStack.LassoIsReachableCycle` | scripts/analyze_trusted_stack.py:106-109 | what closes on a simple path is a real cycle, with a walk to it from the root |
| `TrustedStack.RepeatGivesLasso` | scripts/analyze_trusted_stack.py:106-109 | any walk that repeats a node contains a cycle closed by a simple path |
| `TrustedStack.ReportsIffReachable` | scripts/analyze_trusted_stack.py:95-113 | a cycle is reported exactly when one is reachable, and every report is a cycle |
| `TrustedStack.ChainsAreBounded` | scripts/analyze_trusted_stack.py:95-113 | without a reported cycle no walk of any shape is longer than the path found |
| `TrustedStack.Analyse` | scripts/analyze_trusted_stack.py:166-199 | refused exactly for a negative reserve or no roots; else the depth, cycles and recommendation over all roots |
| `TrustedStack.RecommendationIsSound` | scripts/analyze_trusted_stack.py:187-199 | no cycle is reported exactly when the depth bounds every call chain from every thread root |
| `TrustedStack.RoundAndRound` | scripts/analyze_trusted_stack.py:201-205 | a reachable cycle gives call chains of any length |
| `CapabilityBounds.DecodeInUnits` | cheriot-rtos/scripts/decode_cap.py:73-84 | the corrections decode to the one range of units whose base is at most 511 units below the address |
| `CapabilityBounds.DecodeWindow` | cheriot-rtos/scripts/decode_cap.py:73-84 | the address lies in the window of the decoded base and the length is the difference of the fields |
| `CapabilityBounds.SameBoundsIffSameWindow` | cheriot-rtos/scripts/decode_cap.py:73-84 | moving the address keeps the bounds exactly while it stays in that window |
| `CapabilityBounds.FieldNamesExponents` | cheriot-rtos/scripts/decode_cap.py:73-73 | the exponent field names exactly 0 to 14, each as itself, and 24 as 15 |
| `CapabilityBounds.RepresentableByFields` | cheriot-rtos/scripts/decode_cap.py:73-84 | a range is representable exactly when some four-bit exponent field and two nine-bit fields decode, from its own base as address, to exactly it |
| `CapabilityBounds.RepresentableIffFits` | cheriot-rtos/scripts/decode_cap.py:73-84 | some fields decode to a range exactly when, at a legal exponent, base and length are multiples and the length is at most 511 units |
| `CapabilityBounds.FitsIsRoundedUp` | cheriot-rtos/sdk/include/cheri.hh:366-379 | a length fits an exponent exactly when, rounded up to its units, it is at most 511 of them |
| `CapabilityBounds.LeastExponentIsLeast` | cheriot-rtos/sdk/include/cheri.hh:373-379 | the alignment mask is that of the least exponent at which the rounded-up length fits |
| `CapabilityBounds.MaskIsLeast` | cheriot-rtos/sdk/include/cheri.hh:373-379 | no smaller legal exponent fits |
| `CapabilityBounds.PreciseIffRepresentable` | cheriot-rtos/sdk/include/cheri.hh:381-386 | the precise-range test holds exactly when some fields decode to the range |
| `CapabilityBounds.MultipleIffCtz` | cheriot-rtos/sdk/include/cheri.hh:659-664 | an address is a multiple of a power of two exactly up to its trailing zeros |
| `CapabilityBounds.MaximumLengthCases` | cheriot-rtos/sdk/include/cheri.hh:663-664 | the shifted mantissa, with its 32-bit wrap |
| `CapabilityBounds.SmallRequest` | cheriot-rtos/sdk/include/cheri.hh:650-681 | up to 511 times 2^14 bytes the slow path chooses a representable length, at most the request, zero only for zero |
| `CapabilityBounds.MiddleRequest` | cheriot-rtos/sdk/include/cheri.hh:674-678 | between there and 2^24 bytes it chooses zero |
| `CapabilityBounds.LargeRequest` | cheriot-rtos/sdk/include/cheri.hh:650-681 | from 2^24 bytes it succeeds when the address has at most 14 or at least 24 trailing zeros |
| `CapabilityBounds.LargeMisfit` | cheriot-rtos/sdk/include/cheri.hh:650-681 | and chooses an unrepresentable length when it has 15 to 23 |
| `CapabilityBounds.ChosenLengthIsExact` | cheriot-rtos/sdk/include/cheri.hh:696-709 | for every nonzero address and request the chosen length is at most the request; it is representable if and only if the request is or falls outside the failing family; it is zero for a nonzero request exactly in the middle range |
| `CapabilityBounds.SmallRequestsSucceed` | cheriot-rtos/sdk/include/cheri.hh:684-709 | every request up to 511 times 2^14 bytes succeeds |
| `CapabilityBounds.ChosenLengthIsNearlyLargest` | cheriot-rtos/sdk/include/cheri.hh:666-673 | of every request: each representable length within it that stays in the address space exceeds the chosen one by less than a unit of the request's mask; for requests up to 511 times 2^14 bytes by less than two parts in 511 of the request |
| `CapabilityBounds.LargeRequestCanFail` | cheriot-rtos/sdk/include/cheri.hh:684-709 | address 0x8000 and 2^24 bytes: the chosen length is not representable |
| `CapabilityBounds.ExactSetIff` | cheriot-rtos/sdk/include/cheri.hh:629-637 | an exact set gives the range asked for from the address on, valid exactly if the old capability was, the range is inside its bounds and representable |
| `CapabilityBounds.BoundsProxy.SetInexactAtMostSlow` | cheriot-rtos/sdk/include/cheri.hh:650-681 | the exact set of the slow length |
| `CapabilityBounds.BoundsProxy.SetInexactAtMost` | cheriot-rtos/sdk/include/cheri.hh:696-709 | the exact set of the request if that is valid, else of the slow length; the bounds start at the address and are at most the request, and a valid result lies inside the old bounds and is representable |
| `CapabilityBounds.BoundsProxy.SetWithinBounds` | cheriot-rtos/sdk/include/cheri.hh:684-709 | inside the parent bounds the base is the address, the length the chosen one, and the result valid exactly under the stated condition |
| `FloatParts.TakeOut` | cheriot-rtos/sdk/include/float_to_string_helpers.hh:116-124 | taking out a power of ten lands below it and keeps value times power |
| `FloatParts.PutIn` | cheriot-rtos/sdk/include/float_to_string_helpers.hh:129-137 | putting one in lands in the next interval and keeps value times power |
| `FloatParts.ShrinkBy` | cheriot-rtos/sdk/include/float_to_string_helpers.hh:118-123 | one round of the first loop halves the range of exponents left |
| `FloatParts.GrowBy` | cheriot-rtos/sdk/include/float_to_string_helpers.hh:131-136 | one round of the second loop does so downwards |
| `FloatParts.Normalize` | cheriot-rtos/sdk/include/float_to_string_helpers.hh:106-141 | the value is left alone between the thresholds, else it lands in [1,10) with at least seven powers taken out or five put in; value times the power of ten is the original |
| `FloatParts.ReducePlaces` | cheriot-rtos/sdk/include/float_to_string_helpers.hh:178-183 | one place less for each integral digit after the first, with the matching power of ten |
| `FloatParts.ExtraDigitsIs` | cheriot-rtos/sdk/include/float_to_string_helpers.hh:178-183 | the places given up are the digits after the first: a number lies between ten to that power and ten to the next |
| `FloatParts.RoundHalfUp` | cheriot-rtos/sdk/include/float_to_string_helpers.hh:187-192 | truncating twice rounds half up |
| `FloatParts.RoundDecimals` | cheriot-rtos/sdk/include/float_to_string_helpers.hh:177-202 | integral and decimal parts are the scaled value rounded half up, through the carry |
| `FloatParts.CarryExponent` | cheriot-rtos/sdk/include/float_to_string_helpers.hh:193-202 | ten with an exponent becomes one with the next, the same number |
| `FloatParts.TrimZeros` | cheriot-rtos/sdk/include/float_to_string_helpers.hh:204-209 | trimming denotes the same number and leaves no trailing zero |
| `FloatParts.Decompose` | cheriot-rtos/sdk/include/float_to_string_helpers.hh:170-213 | for every non-negative value in range and 6 to 9 places, the parts denote a number within half a unit of the last kept place; the exponent is zero exactly for zero and strictly between 0.00001 and 10000000 and is else the power found, or one more with integral part one after a carry; a single nonzero integral digit whenever there is an exponent |
| `FloatParts.CommentExample` | cheriot-rtos/sdk/include/float_to_string_helpers.hh:154-161 | 123.045 gives 123, 45, exponent 0 and three places, whatever places are asked for |
| `FloatParts.DenotesReading` | cheriot-rtos/sdk/include/float_to_string_helpers.hh:143-163 | the denoted number is integral plus decimal over ten to the places, shifted by the exponent |
| `Revoker.OddIsSweeping` | cheriot-rtos/sdk/core/allocator/revoker.h:101-109 | on every history the epoch is odd exactly while a sweep runs |
| `Revoker.Progress` | cheriot-rtos/sdk/core/software_revoker/revoker.cc:126-144 | every slot below the current offset has been scanned since the sweep started |
| `Revoker.EnoughChanges` | cheriot-rtos/sdk/core/allocator/revoker.h:136-142 | two changes from an even epoch, three from an odd one, contain a whole sweep of every slot |
| `Revoker.SweepChanges` | cheriot-rtos/sdk/core/allocator/revoker.h:136-142 | and a whole sweep takes at least that many |
| `Revoker.AnswerAfter` | cheriot-rtos/sdk/core/allocator/revoker.h:125-142 | the signed distance test in terms of the unwrapped number of changes |
| `Revoker.FullAnswerIsSound` | cheriot-rtos/sdk/core/allocator/revoker.h:111-143 | on every history, however often the counter wrapped, a yes means a whole sweep started and finished since the epoch was stored |
| `Revoker.FullAnswerIsExact` | cheriot-rtos/sdk/core/allocator/revoker.h:111-143 | the answer is right if and only if the changes since are too few for a sweep or lie, modulo 2^32, between that number and 2^31; always right below 2^31 changes, for both parities |
| `Revoker.LongSilenceAnswersNo` | cheriot-rtos/sdk/core/allocator/revoker.h:125-131 | for any memory, after 2^30 sweeps of it the answer is no |
| `Revoker.FreedObjectIsGone` | cheriot-rtos/sdk/core/software_revoker/revoker.cc:126-136 | once the answer is yes, no slot holds a capability to an object that stayed marked since the epoch was stored, whatever other threads stored meanwhile |
| `Revoker.SlotIs` | cheriot-rtos/sdk/core/software_revoker/revoker.cc:126-136 | on every history a slot not stored into holds what it held, unless it was scanned at a moment when that object was marked, and then nothing |
| `Revoker.NothingLost` | cheriot-rtos/sdk/core/software_revoker/revoker.cc:126-136 | so from any moment on, no sweep removes a capability to an object that is never marked |
| `Revoker.StoredIs` | cheriot-rtos/sdk/core/software_revoker/revoker.cc:130-132 | after a store the slot holds what was stored |
| `Revoker.MarkedIff` | cheriot-rtos/sdk/include/revoker/bitmap_direct.hh:220-240 | on every history an object is marked exactly when some mark of it has not been cleared since |
| `Revoker.SoftwareRevoker.constructor` | cheriot-rtos/sdk/core/software_revoker/revoker.cc:36-67 | the revoker boots idle at epoch zero |
| `Revoker.SoftwareRevoker.Advance` | cheriot-rtos/sdk/core/software_revoker/revoker.cc:69-121 | a start or a finish, moving the epoch by one with the parity the source asserts, wrap included |
| `Revoker.SoftwareRevoker.ScanSlot` | cheriot-rtos/sdk/core/software_revoker/revoker.cc:130-136 | loading and storing back drops the capability exactly if its object is marked, and touches no other slot |
| `Revoker.SoftwareRevoker.ScanRange` | cheriot-rtos/sdk/core/software_revoker/revoker.cc:123-144 | the next 4096 slots in order, or as many as are left, then a finish at the end of the range; exactly the capabilities to marked objects go from that stretch, and everything else stays |
| `Revoker.SoftwareRevoker.Tick` | cheriot-rtos/sdk/core/software_revoker/revoker.cc:148-159 | starts if idle, then scans a stretch as above; it always makes progress |
| `Revoker.SoftwareRevoker.HasRevocationFinished` | cheriot-rtos/sdk/core/allocator/revoker.h:111-143 | the query ticks exactly when the epoch is odd, with the same effect on memory; a full yes means a whole sweep since any moment at which the stored epoch was current |
| `Revoker.SoftwareRevoker.Kick` | cheriot-rtos/sdk/core/allocator/revoker.h:145-149 | a kick is a tick |
| `Revoker.SoftwareRevoker.MarkFreed` | cheriot-rtos/sdk/include/revoker/bitmap_direct.hh:220-226 | exactly this object becomes marked |
| `Revoker.SoftwareRevoker.ClearMark` | cheriot-rtos/sdk/include/revoker/bitmap_direct.hh:228-240 | exactly this object's mark is cleared |
| `Revoker.SoftwareRevoker.Store` | cheriot-rtos/sdk/core/software_revoker/revoker.cc:130-132 | a thread stores a capability the load barrier let through; only that slot changes |
| `Revoker.SoftwareRevoker.LetOthersRun` | cheriot-rtos/sdk/core/allocator/main.cc:258-262 | what other threads do during a yield extends the history, and leaves the epoch alone if they do not tick |
| `Revoker.SoftwareRevoker.AskAndKick` | cheriot-rtos/sdk/core/allocator/main.cc:244-256 | one round of the polling loop either answers yes or makes progress towards the awaited epoch; between sweeps the answer is the one for the epoch as it is |
| `Revoker.KickGetsCloser` | cheriot-rtos/sdk/core/allocator/main.cc:244-256 | a refused query followed by a kick brings the epoch nearer to the awaited one, wrap included |
| `Revoker.SoftwareRevoker.WaitForRevoker` | cheriot-rtos/sdk/core/allocator/main.cc:230-265 | whatever other threads mark, store and tick while it yields, success means a whole sweep since the stored epoch and no slot referring to an object that stayed marked since, and nothing that stayed unmarked is lost; the polling loop ends once yields run out or the others leave the sweep alone, it succeeds if every yield is granted, and without any yield if between sweeps the answer is yes already |
| `Bitpack.ValueMaskIsOnes` | cheriot-rtos/sdk/include/bitpack.hh:515-517 | the mask's value is two to the width, less one |
| `Bitpack.ViewIsArithmetic` | cheriot-rtos/sdk/include/bitpack.hh:522-526 | reading a field is dividing by two to the lowest index and taking the remainder by two to the width |
| `Bitpack.WithIsBitwise` | cheriot-rtos/sdk/include/bitpack.hh:528-532 | a write puts the value's low bits into the span and keeps every other bit |
| `Bitpack.PutGet` | cheriot-rtos/sdk/include/bitpack.hh:522-532 | a written field reads back the value cut to its width |
| `Bitpack.GetPut` | cheriot-rtos/sdk/include/bitpack.hh:522-532 | writing back what was read changes nothing |
| `Bitpack.PutPut` | cheriot-rtos/sdk/include/bitpack.hh:528-532 | of two writes to a field the second counts |
| `Bitpack.ReadsBackIffInside` | cheriot-rtos/sdk/include/bitpack.hh:491-532 | a field that passes the static assertions reads back every value in every word if and only if it ends inside the word |
| `Bitpack.ChainReadsLast` | cheriot-rtos/sdk/include/bitpack.hh:1356-1365 | after a chain over fields that are equal or disjoint, each named field reads its last value cut to width and every other bit is unchanged |
| `Bitpack.MaskedEqualsIffFieldsRead` | cheriot-rtos/sdk/include/bitpack.hh:1386-1410 | the masked equality holds exactly when each named field reads the last value given for it |
| `Bitpack.ChainSatisfiesQuery` | cheriot-rtos/sdk/include/bitpack.hh:1364-1410 | a chain makes the comparison with the same list true, whatever the word was |
| `Bitpack.Stored.Assign` | cheriot-rtos/sdk/include/bitpack.hh:592-606 | assignment through a proxy changes the field's span and no other bit |
| `Bitpack.Stored.Alter` | cheriot-rtos/sdk/include/bitpack.hh:717-732 | altering replaces the field by a function of its value and changes no other bit |

## Left out

- `queue.h`, `locks.h`, `futex.h`, `multiwaiter.h`, `event.h`, `allocator.h`, `token.h`: interfaces only. The ring buffer takes futex wait and wake from their documented contract: a wait sleeps only if the word still has the expected value, and a wake reaches every sleeper.
- Weak memory order and spurious futex wake-ups in the ring buffer; writing a message is two steps, so a torn slot is visible to the model.
- The bodies of `race` and of the other asyncio plumbing in `conductor.py`: a race is the documented choice of some non-empty result. Timeouts, sleeps and the `eager` flag only shape which outcome a race has.
- Starting processes, reading sizes, logging, strategy files, argument parsing and the periodic slow-process message of `conductor.py`; memory sizes are non-negative reals.
- `chunk_name` in `conductor.py`: its regular expression is not modelled; grouping is proved for every list of non-empty chunk lists.
- `TrustedStack.Search.Visit`: targets are taken in any order, so which of several longest paths is returned is not modelled.
- `thread_roots`, report loading, exit codes and printing of `analyze_trusted_stack.py`.
- `CapabilityBounds.LeastExponentIsLeast`: the alignment-mask builtin is modelled by its contract, the least legal exponent at which the rounded-up length fits; permissions and object types of `decode_cap.py` are not modelled, and address zero is excluded because the trailing-zero builtin is undefined there.
- `FloatParts.Decompose`: arithmetic is over exact reals; rounding of hardware floats, NaN and infinity are not modelled.
- Spike's processor, memory unit and CSR maps: CSRs are plain words and traps are events. `pc_is_load`, interrupt fixups, instruction-side errors and CSR fixups of `spike_cosim.cc` are not modelled.
- Words of the cosimulation are numbers and byte enables are sets of lanes; the shifts and masks of the source appear as the arithmetic they perform.
- Early `return` out of a `CHERIOT_DURING` block, which skips the pop, and the invocation-count reset of the switcher.
- `Revoker.SoftwareRevoker.WaitForRevoker`: the loop is shown to end only if from some attempt on the yields run out or other threads stop advancing the sweep; under an unlimited timeout others could carry the epoch past the accepted half of the range each time. Reacquiring the lock is part of the yield being granted.
- `Revoker.SoftwareRevoker.HasRevocationFinished`: the debug assertion that the stored epoch is even is not a precondition; the answer is characterised for both parities.
- The hardware, fake and null revokers, the shadow bitmap itself, and the rest of the allocator.
- The masks of `bitpack.hh` are built from a 32-bit one, so a field of 32 or more bits in 64-bit storage does not compile; the model admits such fields and proves the same laws for them.
- `Bitpack` relations other than equality in the masked comparison, `Numeric` wrappers, enumerations and nested bitpacks: field values are storage words. `volatile` access counts are not modelled.
