# ReconOS host software: models and proofs

ReconOS lets threads in programmable hardware use operating system objects of a Linux host. This project models
the host side as it is written in C and Python and proves what its protocols promise, over every interleaving
and every input. Steps of concurrent code have the grain of the C statements (lock, wait, store, advance, post,
unlock); code that one thread executes alone is imperative and proved against the same step functions.

| file | what it models |
|---|---|
| `Words.dfy`, `Sorting.dfy` | 32-bit words, counting, remainders; sorting as a specification |
| `Mailbox.dfy`, `MailboxCode.dfy` | `mbox.c`: a bounded FIFO for any number of putters and getters; the structure updated in place |
| `WorkerPool.dfy`, `WorkerPoolProof.dfy`, `WorkerPoolRuns.dfy` | `sort_demo.c`: main and its workers on two mailboxes; the invariant; termination and shutdown |
| `BubbleSort.dfy`, `Merge.dfy`, `SortDemo.dfy` | the in-place sort, the ping-pong merge, and the whole program on its real buffers |
| `FslDriver.dfy` | `fsl.c`: the blocking read against the interrupt handler and the device, as a machine and as the loop it is |
| `NocThreads.dfy`, `NocRing.dfy` | `reconosNoC.c`: the three threads and their flags; the packet encoder and its 64-byte ring |
| `PacketList.dfy`, `SendQueue.dfy` | `packetList.c` as a heap structure; senders, list and semaphore together |
| `MessageQueue.dfy` | `rq.c`: messages as heap blocks, and who owns each block |
| `Delegate.dfy`, `SlotReset.dfy` | `libreconos.c`: the command loop and its stream framing; the reset mask |
| `PyString.dfy`, `MhsLine.dfy`, `Mhs.dfy`, `MhsGrammar.dfy`, `MhsCode.dfy` | `mhs.py`: parser and printer of hardware specifications, and the grammar of the texts it accepts |

## Where the code does less than it intends

Each of these is a lemma that names the exact condition or a run that shows it.

- `fsl_setup_dev` requests the interrupt (line 315) before it sets `irq_enabled` (line 338). If the handler runs in
  between, the flag says "unmasked" for a masked line and a reader can sleep for ever; in all other cases no
  wake-up is lost (`NoWakeupIsLostIffSetupWasQuiet`).
- `irq_count` reaches 2, although its declaration says it should never exceed 1 (`TwoInterruptsCanBePending`).
- `recursive_merge` stays inside its buffers and returns exactly for block counts that are powers of two or zero
  (`MergesInBoundsIffPowerOfTwo`).
- The sort demo is safe and comes to its end exactly when its command line asks for at most 14 hardware and 32 software
  threads, buffer size and number of threads fit into an int, and there are either workers, neither number negative, for
  a power of two of blocks, or neither workers nor blocks (`ShutdownIff`). The program checks none of it.
- The processing thread keeps `timerMutex` while it waits for space. That wait is answered exactly when the exchange
  thread is already on its way to the signal as the check fails (`FailedCheckIsAnsweredIff`). Otherwise all three
  threads come to wait for each other, which happens (`WaitingForSpaceCanDeadlock`); `ReachableDeadlocks` names all
  deadlocks.
- A payload that ends at the end of the ring leaves the write offset at 64. The first byte of the next packet is then
  stored behind the ring and slot 0 is not written (`WriteFromTheEnd`); two packets that pass the check are enough
  (`SecondPacketCanEndAtTheEnd`). Line 606 then makes that word offset 16 for the hardware, which is not a word of the ring.
- The space check of the ring wraps around for payload lengths just below 2^32 (`SpaceCheckMeansRoom`), it accepts a
  packet whose padding fills the last byte, after which the ring reads as empty (`UnreadGrowsUnlessFull`), and it is
  not repeated after waiting; `WriteSparesUnreadIffRoom` says when the write is harmless nevertheless.
- The check uses the read offset that the exchange thread has stored, which lags behind the hardware. So a packet that
  takes the last byte the software knows of need not harm the hardware (`CheckIsEnoughIff`) but misleads the software:
  payloads of 18, 17 and 40 bytes, all checked, overwrite the second one unread (`LaggingCheckOverwrites`). For runs of
  writes, reads and reports with any lag, `IntactIffFitting` gives the exact condition under which the ring is a queue,
  for checked and unchecked writes, and `FaithfulIffCareful` the exact condition, in terms of what the software knows,
  under which checked writes also leave its offsets truthful.
- A payload that needs more than two pieces runs over the end of the ring (`SpillStaysInsideIff`); only writes without
  a valid check can have one.
- `rq_receive` does not free the block of a message it rejects; nothing else leaks (`OnlyRejectedMessagesLeak`). The
  test `< 0` on its result in `libreconos.c` line 506 is never true, because the result is unsigned; the next test
  catches the error for every limit but 2^32-1 (`RejectionIsAnsweredByZero`).

## Model

| member | source | states |
|---|---|---|
| Mailbox.InitEstablishesInv | linux/libreconos/mbox.c:6-42 | a fresh mailbox with idle threads satisfies the invariant from which everything about the mailbox follows |
| Mailbox.StepKeepsInv | linux/libreconos/mbox.c:57-84 | every statement of every putter and getter keeps mutual exclusion and the books: semaphores, indices and slots in terms of all messages stored and taken |
| Mailbox.InvIsSafe | linux/libreconos/mbox.c:62-78 | no statement indexes outside the ring or divides by zero |
| Mailbox.StepHistory | linux/libreconos/mbox.c:57-84 | which statements store or take a message, and which message it is |
| Mailbox.MailboxIsFifo | linux/libreconos/mbox.c:57-84 | for every run of any number of threads: the taken messages are a prefix of the stored ones, the ring and indices encode exactly the remainder, both semaphores plus the threads between wait and post add up to the size |
| Mailbox.NoSlotRace | linux/libreconos/mbox.c:63-77 | a store and a load that can happen at the same time use different slots |
| Mailbox.SomePutterCanStep | linux/libreconos/mbox.c:59-67 | while there is room, threads inside mbox_put do not block each other |
| Mailbox.SomeGetterCanStep | linux/libreconos/mbox.c:74-81 | while there is a message, threads inside mbox_get do not block each other |
| Mailbox.PutCall | linux/libreconos/mbox.c:57-68 | an uninterrupted put appends its message exactly when the lock is free and there is room, and otherwise stores nothing |
| Mailbox.GetCall | linux/libreconos/mbox.c:70-84 | an uninterrupted get returns the oldest message not yet taken exactly when the lock is free and there is one |
| MailboxCode.MessageBox.constructor | linux/libreconos/mbox.c:6-42 | initialises the structure to the initial state of the machine |
| MailboxCode.MessageBox.Put | linux/libreconos/mbox.c:57-68 | the in-place code leaves exactly the state the statement machine reaches without interruption |
| MailboxCode.MessageBox.Get | linux/libreconos/mbox.c:70-84 | likewise for mbox_get, with the message it returns |
| WorkerPool.PoolInitEstablishesInv | demos/sort_demo/linux/sort_demo.c:148-173 | the state before the first thread is created satisfies the pool invariant |
| WorkerPool.MergeFitsIff | demos/sort_demo/linux/sort_demo.c:248-253 | recursive_merge can handle the buffer of the demo if and only if the number of blocks is a power of two or zero |
| WorkerPool.ThreadsFitIff | demos/sort_demo/linux/sort_demo.c:164-190 | every thread that the creation loops start has its slot and its entry in the arrays of handles if and only if the command line asks for at most 14 hardware and 32 software threads |
| WorkerPool.PoolInvIsSafe | demos/sort_demo/linux/sort_demo.c:82-94 | in every state with the invariant the next statement of every thread is safe, except exactly creating threads with an int that overflows or without a handle, and a merge that recursive_merge cannot handle; what a worker sorts is a block of the buffer, and joining needs no test of its own |
| WorkerPoolProof.StepKeepsPoolInv | demos/sort_demo/linux/sort_demo.c:72-98 | every statement of every worker and of main keeps the pool invariant |
| WorkerPoolProof.LoadKeepsBlocks | demos/sort_demo/linux/sort_demo.c:82-84 | taking the n-th job makes one worker the only holder of block n, or of an exit command |
| WorkerPoolProof.SortKeepsBlocks | demos/sort_demo/linux/sort_demo.c:89-92 | sorting changes the held block and no other |
| WorkerPoolProof.AllSortedWhenCollected | demos/sort_demo/linux/sort_demo.c:228-232 | after as many anonymous acknowledgements as blocks, every block is sorted and no worker holds one |
| WorkerPoolRuns.AcknowledgementsCountSortedBlocks | demos/sort_demo/linux/sort_demo.c:82-94 | in every reachable state: blocks sorted = acknowledgements received + acknowledgements in mb_stop + workers between sort and put |
| WorkerPoolRuns.NobodyElseReachesTheBlock | demos/sort_demo/linux/sort_demo.c:82-92 | in every reachable state any two workers hold different blocks, and before main puts the first block and from the merge on no worker, the first and only one included, holds any |
| WorkerPoolRuns.StepLowersRank | demos/sort_demo/linux/sort_demo.c:81-95 | every step of every thread lowers one measure over main and all workers |
| WorkerPoolRuns.RunsAreFinite | demos/sort_demo/linux/sort_demo.c:173-302 | the length of every run of safe statements is bounded by the measure of its first state |
| WorkerPoolRuns.OnlyFinishedIsStuck | demos/sort_demo/linux/sort_demo.c:173-302 | with both blocks and workers, or neither, and one exit command per worker, the only state in which no thread has a statement to execute is the one after the last join |
| WorkerPoolRuns.LopsidedNeverFinishes | demos/sort_demo/linux/sort_demo.c:228-302 | blocks without workers, workers without blocks, and fewer exit commands than workers never reach the last join |
| WorkerPoolRuns.ShutdownIff | demos/sort_demo/linux/sort_demo.c:148-302 | every reachable state is safe and every stuck one is the state after the last join, if and only if there are at most 14 hardware and 32 software threads, both ints fit, and there are workers, neither number negative, and a power of two of blocks, or neither workers nor blocks |
| WorkerPoolRuns.FinishedMeansDone | demos/sort_demo/linux/sort_demo.c:284-302 | after the last join every worker took exactly one exit command, every job was taken, and the merge got the sorted blocks |
| SortDemo.SortBlock | demos/sort_demo/linux/sort_demo.c:91-91 | bubblesort on the address a worker holds performs the step of the machine on the real buffer |
| SortDemo.MergeBlocks | demos/sort_demo/linux/sort_demo.c:243-253 | the merge turns the sorted blocks into the sorted buffer, in data or temp according to the number of passes |
| SortDemo.Turn | demos/sort_demo/linux/sort_demo.c:81-95 | one statement of any thread keeps buffer and machine in step |
| SortDemo.Run | demos/sort_demo/linux/sort_demo.c:148-302 | under that condition, for every interleaving, the program ends and the buffer returned by the merge, data or temp, is the sorted permutation of the words first in data |
| BubbleSort.SwapAdvances | demos/sort_demo/linux/bubblesort.c:26-32 | a swap extends the part of the pass that is in place up to the swapped position |
| BubbleSort.CompareAdvances | demos/sort_demo/linux/bubblesort.c:25-26 | a comparison without swap extends the part that is in place |
| BubbleSort.PassEnds | demos/sort_demo/linux/bubblesort.c:24-36 | after a pass everything above the last swap is in place and no smaller than anything below; without a swap all is sorted |
| BubbleSort.BubbleSort | demos/sort_demo/linux/bubblesort.c:15-39 | sorts the block in place with the shrinking bound and touches nothing else |
| Sorting.SortIsSortedPermutation | demos/sort_demo/linux/bubblesort.c:15-39 | what "sorted" means: ascending and the same words with the same multiplicities |
| Sorting.SortedPermutationIsSort | demos/sort_demo/linux/sort_demo.c:258-264 | a sequence is the sorted permutation of the input if and only if it equals the specification |
| Merge.MergeSortsBothBlocks | demos/sort_demo/linux/merge.c:21-46 | merging two sorted blocks is sorting their concatenation |
| Merge.SimpleMerge | demos/sort_demo/linux/merge.c:21-46 | the pointer loop writes exactly the merge of both blocks and nothing else |
| Merge.PassKeepsWords | demos/sort_demo/linux/merge.c:60-68 | a pass permutes the words |
| Merge.PassDoublesSortedBlocks | demos/sort_demo/linux/merge.c:60-68 | a pass over sorted blocks gives sorted blocks of twice the size |
| Merge.PassOver | demos/sort_demo/linux/merge.c:60-68 | under the bound above the pair loop writes the pass and leaves the rest of the result alone |
| Merge.MergeAllSorts | demos/sort_demo/linux/merge.c:49-71 | on 2^k sorted blocks all passes together sort the whole |
| Merge.MergeAllSortsBlocks | demos/sort_demo/linux/merge.c:49-71 | so what recursive_merge computes from sorted blocks is the sorted permutation of its input |
| Merge.PassInBoundsIffEven | demos/sort_demo/linux/merge.c:60-68 | the pair loop stays inside the buffers if and only if the number of blocks is even |
| Merge.DoublingEnds | demos/sort_demo/linux/merge.c:69-69 | doubling the block size in 32 bits reaches zero, so every recursion that stays in bounds ends |
| Merge.RecursiveMerge | demos/sort_demo/linux/merge.c:49-71 | whenever all passes stay in bounds, no words at all included: terminates and returns data for an even and result for an odd number of passes, holding the merge of all passes |
| Merge.MergesInBoundsIffPowerOfTwo | demos/sort_demo/linux/merge.c:54-69 | with 32-bit block sizes all passes stay inside the buffers and the call returns if and only if the block count is a power of two or zero |
| FslDriver.StepKeepsInv | linux/fsl_driver/fsl.c:169-217 | reader statements, interrupts and device pushes keep an invariant indexed by the statement of the reader |
| FslDriver.NoWakeupIsLostIffSetupWasQuiet | linux/fsl_driver/fsl.c:307-341 | no run from a set-up device reaches a reader that waits for ever beside a word if and only if no interrupt was handled between request_irq and irq_enabled = 1 |
| FslDriver.LostStaysLost | linux/fsl_driver/fsl.c:196-204 | once lost, a wake-up stays lost whatever the device delivers |
| FslDriver.WaitingReaderIsServed | linux/fsl_driver/fsl.c:184-208 | a waiting reader without a counted interrupt has the line unmasked; if a word is there, it or the handler can run |
| FslDriver.InterruptAccounts | linux/fsl_driver/fsl.c:189-198 | irq_enabled is wrong exactly between lines 197 and 198, enable_irq is balanced, irq_count never exceeds 2 |
| FslDriver.TwoInterruptsCanBePending | linux/fsl_driver/fsl.c:274-293 | the bound 2 is reached |
| FslDriver.RetryObtainsWord | linux/fsl_driver/fsl.c:202-208 | a retry after a wake-up always obtains a word |
| FslDriver.ReadReturnsStream | linux/fsl_driver/fsl.c:184-216 | a read that returns a count delivered the next count/4 words of the stream in order and consumed nothing else |
| FslDriver.BlockingReadReturnsAll | linux/fsl_driver/fsl.c:184-216 | a blocking read that is neither interrupted nor faulted returns the full count |
| FslDriver.FslDevice.constructor | linux/fsl_driver/fsl.c:307-316 | the device while its interrupt is requested |
| FslDriver.FslDevice.SetUp | linux/fsl_driver/fsl.c:307-341 | whatever the device and the handler do meanwhile, the set-up device satisfies the invariant if and only if no interrupt was counted |
| FslDriver.FslDevice.Read | linux/fsl_driver/fsl.c:169-217 | the loop with its index stepped back, while device and handler act between any two statements: it is a run of the machine and it ends; a result of v bytes delivered the next v/4 words of the stream and no refused one; it returns the whole count unless a non-blocking read found the FIFO empty, user memory refused the word reached, or a signal ended a wait; only a blocking read still waits, with the interrupt unmasked |
| FslDriver.FslDevice.NoData | linux/fsl_driver/fsl.c:188-209 | the branch without data: a result, a wait with no counted interrupt, or a wake-up |
| FslDriver.FslMaster.Write | linux/fsl_driver/fsl.c:221-256 | fsl_write puts a prefix of the words, as many as fit and as can be read, and reports bytes or the fault |
| NocThreads.ProcKeepsInv | projects/noc_test/linux/hwSwIf/reconosNoC.c:335-423 | the processing thread keeps mutex ownership, the trace of a pending write pointer, and that every flag has reached the thread that acts on it |
| NocThreads.TimKeepsInv | projects/noc_test/linux/hwSwIf/reconosNoC.c:524-577 | so does the timer thread, including aborted timers |
| NocThreads.ExchKeepsInv | projects/noc_test/linux/hwSwIf/reconosNoC.c:589-626 | so does the pointer exchange thread, whose wait is not repeated |
| NocThreads.PendingPointerIsNeverForgotten | projects/noc_test/linux/hwSwIf/reconosNoC.c:377-626 | in every interleaving with spurious wake-ups: when both mutexes are free and the hardware lacks the write pointer, one of the three flags is set and its thread is awake or has a timeout |
| NocThreads.PointerIsDelivered | projects/noc_test/linux/hwSwIf/reconosNoC.c:377-626 | after every run, if no further packet arrives, the threads come to rest in a bounded number of statements; then the hardware has the current write pointer, no flag is set and no timer runs, or all three threads wait for each other |
| NocThreads.UrgentStopsTheTimer | projects/noc_test/linux/hwSwIf/reconosNoC.c:380-396 | in every reachable state in which an urgent packet asks for the exchange, no timer runs or is about to start and the timer thread is not left in its timed wait |
| NocThreads.WaitIsAnsweredIff | projects/noc_test/linux/hwSwIf/reconosNoC.c:362-368 | a wait for space can be signalled if and only if the exchange thread is on its way to the signal; then no run gets stuck before it and every run reaches it in a bounded number of steps |
| NocThreads.FailedCheckIsAnsweredIff | projects/noc_test/linux/hwSwIf/reconosNoC.c:362-368 | after every run: a failed check is answered if and only if the exchange thread is at the hardware, about to lock again, already woken, or starting with a dirty pointer |
| NocThreads.ReachableDeadlocks | projects/noc_test/linux/hwSwIf/reconosNoC.c:335-626 | a reachable state is a deadlock if and only if the processing thread waits for space, the exchange thread for a dirty pointer and the timer thread for a mutex or a start |
| NocThreads.WaitingForSpaceCanDeadlock | projects/noc_test/linux/hwSwIf/reconosNoC.c:362-368 | such a deadlock is reached without spurious wake-ups while the hardware lacks the write pointer |
| NocThreads.Sw2HwInterface.constructor | projects/noc_test/linux/hwSwIf/reconosNoC.c:177-257 | a zeroed interface with its threads just created |
| NocThreads.Sw2HwInterface.ProcessPacket | projects/noc_test/linux/hwSwIf/reconosNoC.c:335-423 | one round of the thread while the others do anything: a run of the machine that keeps the invariant and ends with both mutexes released and the offset moved, or blocked at a lock or in the wait; without space it has waited, an urgent packet has asked for the exchange and any other has looked after the timer |
| NocThreads.Sw2HwInterface.TimerRound | projects/noc_test/linux/hwSwIf/reconosNoC.c:528-577 | likewise for the timer thread; after a round the hardware has the write pointer, or its exchange is asked for or under way; without a round the thread is blocked or has looked in vain as often as it was allowed to |
| NocThreads.Sw2HwInterface.ExchangeRound | projects/noc_test/linux/hwSwIf/reconosNoC.c:593-626 | likewise for the pointer exchange thread; after a round the answer of the hardware is the read offset and nobody sleeps for space; without one the thread is blocked |
| NocRing.DecodeEncode | projects/noc_test/linux/hwSwIf/reconosNoC.c:454-475 | every encoded packet can be read back, up to the bits the header masks drop, whatever follows it |
| NocRing.WriteInteger | projects/noc_test/linux/hwSwIf/reconosNoC.c:501-514 | four big-endian bytes, the first at the offset itself, which may be 64, the others wrapping around |
| NocRing.WritePayload | projects/noc_test/linux/hwSwIf/reconosNoC.c:477-490 | for every length: one copy, or one up to the end of the ring and a second from its beginning on that may run over the end again; and where the payload ends |
| NocRing.SpillIsPut | projects/noc_test/linux/hwSwIf/reconosNoC.c:477-490 | up to 64 bytes the copies are writing byte by byte around the end |
| NocRing.SpillStaysInsideIff | projects/noc_test/linux/hwSwIf/reconosNoC.c:477-490 | the copies leave everything behind the ring alone if and only if offset and payload are at most 128 bytes together |
| NocRing.AlignOffset | projects/noc_test/linux/hwSwIf/reconosNoC.c:492-494 | ends at the next word boundary modulo 64; 64 itself stays 64 |
| NocRing.WritePacket | projects/noc_test/linux/hwSwIf/reconosNoC.c:449-499 | from every offset up to 64 and for any payload: fourteen bytes of head and then the copies of the payload; up to 64 bytes of payload that is the flat encoding and nothing else changes; the new offset is the start plus head and payload rounded up to 4, modulo 64 |
| NocRing.WrittenSlots | projects/noc_test/linux/hwSwIf/reconosNoC.c:449-499 | slot by slot: the encoding at start .. start+13+p modulo 64, all other bytes unchanged, and slot 0 unchanged from offset 64 |
| NocRing.SpaceCheckMeansRoom | projects/noc_test/linux/hwSwIf/reconosNoC.c:429-437 | what the check computes in 32 bits, and that it means room for all lengths below 2^32 - 14 |
| NocRing.StoreStaysInsideIff | projects/noc_test/linux/hwSwIf/reconosNoC.c:452-456 | no byte behind the ring is stored if and only if the offset is below 64 |
| NocRing.UnreadBytesSurvive | projects/noc_test/linux/hwSwIf/reconosNoC.c:429-437 | when the check holds at the write, no unread byte is overwritten, from offset 64 either |
| NocRing.WriteSparesUnreadIffRoom | projects/noc_test/linux/hwSwIf/reconosNoC.c:361-371 | without a repeated check, the write spares every unread byte if and only if unread bytes and packet fit together |
| NocRing.UnreadGrowsUnlessFull | projects/noc_test/linux/hwSwIf/reconosNoC.c:429-496 | unread bytes grow by the padded size except exactly when that is one more than the free space; then the ring reads as empty |
| NocRing.WriteAppends | projects/noc_test/linux/hwSwIf/reconosNoC.c:449-499 | from an offset below 64, checked or not, a write appends its packet to the queue in the ring and tells the hardware the truth if and only if the padded packet leaves a byte free behind what the hardware has not read; the offset becomes 64 if and only if the payload ends at the end |
| NocRing.CheckIsEnoughIff | projects/noc_test/linux/hwSwIf/reconosNoC.c:429-437 | a packet that passes the check fits, except exactly when it takes the last byte and the software knows all that was read |
| NocRing.CheckedWriteAppends | projects/noc_test/linux/hwSwIf/reconosNoC.c:429-499 | from an offset below 64 a checked write leaves queue, hardware and software in agreement, whatever the lag of the read offset, if and only if it does not take what the software believes to be the last free byte |
| NocRing.WriteFromTheEnd | projects/noc_test/linux/hwSwIf/reconosNoC.c:452-456 | from offset 64 the first byte lands behind the ring and slot 0 is not written; the packet is in the ring if and only if that slot held 0 |
| NocRing.IntactIffFitting | projects/noc_test/linux/hwSwIf/reconosNoC.c:361-371 | for every run of writes, checked or not, reads and reports: all stores lie in the ring and it always holds exactly the queue of unread packets, if and only if every write fits and none but the last ends at the end of the ring |
| NocRing.FaithfulIffCareful | projects/noc_test/linux/hwSwIf/reconosNoC.c:429-499 | for every run of checked writes, reads and reports, with any lag: besides, the offsets always tell the software the truth about what it knows to be read, if and only if no write takes the last byte it believes free and none but the last ends at the end of the ring |
| NocRing.SecondPacketCanEndAtTheEnd | projects/noc_test/linux/hwSwIf/reconosNoC.c:477-498 | payloads of 2 and 34 bytes reach offset 64, and the next write, though checked, is not stored inside the ring |
| NocRing.LaggingCheckOverwrites | projects/noc_test/linux/hwSwIf/reconosNoC.c:610-623 | payloads of 18, 17 and 40 bytes with one read not yet reported: all three pass the check, the first two writes lose nothing, the third overwrites an unread packet |
| NocRing.ReadTakesOldest | projects/noc_test/linux/hwSwIf/reconosNoC.c:449-499 | what the hardware finds at its read offset is the oldest packet, and reading it leaves the rest |
| PacketList.PacketList.IsEmpty | projects/noc_test/linux/hwSwIf/packetList.c:49-57 | true exactly for the empty queue |
| PacketList.PacketList.Add | projects/noc_test/linux/hwSwIf/packetList.c:8-31 | appends, or changes nothing and reports the error; the stale last pointer is never followed |
| PacketList.PacketList.Poll | projects/noc_test/linux/hwSwIf/packetList.c:33-47 | removes and frees the oldest element; polling the only element leaves last pointing to freed memory |
| SendQueue.StepKeepsInv | projects/noc_test/linux/hwSwIf/reconosNoC.c:165-174 | every step of senders and processing thread keeps the balance of list and semaphore, the order of the packets, and every packet |
| SendQueue.ListAndSemaphoreAgree | projects/noc_test/linux/hwSwIf/reconosNoC.c:339-358 | in every interleaving list length = semaphore + senders between add and post + processor between wait and poll; poll never finds the list empty; packets reach the ring in the order of the adds |
| SendQueue.SettledMeansWritten | projects/noc_test/linux/hwSwIf/reconosNoC.c:160-371 | the only reachable states in which no thread can go on are those with all senders returned, the list empty and every packet in the ring; these are the packets of all calls but those refused for lack of memory |
| SendQueue.RunsSettle | projects/noc_test/linux/hwSwIf/reconosNoC.c:160-175 | without new calls every run of the threads is bounded |
| MessageQueue.StepKeepsInv | linux/libreconos/rq.c:21-43 | every statement of senders and receivers keeps every heap block with exactly one owner |
| MessageQueue.InvIsSafe | linux/libreconos/rq.c:21-43 | every block that is read or freed is allocated, so none is freed twice |
| MessageQueue.MessagesArriveInOrder | linux/libreconos/rq.c:32-43 | in every reachable state a receiver about to reply has the n-th message sent, whole and unchanged, if and only if 0 < size <= limit, and nothing otherwise |
| MessageQueue.NoMessageIsDeliveredTwice | linux/libreconos/rq.c:36-36 | two receivers never have the same message |
| MessageQueue.GetTakesNext | linux/libreconos/rq.c:36-36 | messages are handed out in the order in which they were put |
| MessageQueue.OnlyTheQueueBlocks | linux/libreconos/rq.c:21-43 | in every reachable state a call is held up only by a queue with `capacity` messages or by an empty one |
| MessageQueue.StatementsAdvance | linux/libreconos/rq.c:21-43 | every statement brings its call nearer to its end and leaves the other calls where they are |
| MessageQueue.OnlyRejectedMessagesLeak | linux/libreconos/rq.c:39-41 | when all calls have returned and the queue is empty, the blocks still allocated are those of the rejected messages, each empty or larger than the limit of its receiver |
| MessageQueue.Rqueue.Send | linux/libreconos/rq.c:21-27 | appends a copy of the message, or has made the copy and blocks |
| MessageQueue.Rqueue.Receive | linux/libreconos/rq.c:32-43 | returns and frees the oldest message if 0 < size <= limit; otherwise -1, and the message is gone from the queue but not freed |
| Delegate.ParseEncode | linux/libreconos/libreconos.c:232-596 | every well-formed request is read back as itself, consuming exactly its words |
| Delegate.GotIff | linux/libreconos/libreconos.c:232-596 | a request is taken off the stream if and only if the stream begins with its words and each of its handles names a resource of the right type |
| Delegate.ShortIff | linux/libreconos/libreconos.c:232-596 | the loop waits for more words if and only if the words so far are the beginning of a request; the handles of a message to send are checked before its words are read |
| Delegate.LoopKeepsSync | linux/libreconos/libreconos.c:221-597 | for every sequence of well-formed requests followed by anything, the loop makes exactly these calls, consumes exactly their encodings, writes exactly their replies and goes on with what follows |
| Delegate.SessionOfWholeThread | linux/libreconos/libreconos.c:589-591 | a thread that ends with the exit command ends the loop, and nothing behind it is read |
| Delegate.RepliesAreDecodable | linux/libreconos/libreconos.c:486-577 | knowing its requests, the hardware splits the reply stream into one reply per request, including replies of variable length |
| Delegate.HardwareReceivesAnswers | linux/libreconos/libreconos.c:232-596 | in every session the hardware thread splits the words it receives into one reply per request, and each is the answer to its own call: the result, 0, the initialisation data, or the size and exactly the words of a message with 0 < size <= limit |
| Delegate.BadHandleEndsTheProcess | linux/libreconos/libreconos.c:240-253 | a request with such a handle ends the process before its call, after the calls and replies of all requests before it |
| Delegate.CallsAreTyped | linux/libreconos/libreconos.c:240-253 | whatever the words on the link are, no call is made with a handle that names no resource of the right type |
| Delegate.FatalLimitEndsTheProcess | linux/libreconos/libreconos.c:503-534 | a receive limit of 2^32-1 ends the process, after an empty message has been announced as one of 2^32-1 bytes |
| Delegate.RejectionIsAnsweredByZero | linux/libreconos/libreconos.c:506-523 | a rejected message is answered by a single 0 although the test for a negative result never succeeds; a limit of 2^32-1 would defeat it |
| Delegate.DelegateThread.ReadWords | linux/libreconos/libreconos.c:569-573 | reads the announced number of words, in order |
| Delegate.DelegateThread.WriteWords | linux/libreconos/libreconos.c:527-531 | writes the words of a message, in order |
| Delegate.DelegateThread.OneHandleCommand | linux/libreconos/libreconos.c:236-258 | the eight branches with one handle: check, call, and result or 0 as reply |
| Delegate.DelegateThread.MboxPutCommand | linux/libreconos/libreconos.c:260-283 | reads both arguments before it checks the handle |
| Delegate.DelegateThread.CondWaitCommand | linux/libreconos/libreconos.c:403-438 | both handles are checked before the call |
| Delegate.DelegateThread.RqReceiveCommand | linux/libreconos/libreconos.c:486-534 | replies with size and words, or with 0; a limit of 2^32-1 ends the process after the call |
| Delegate.DelegateThread.RqSendCommand | linux/libreconos/libreconos.c:538-577 | reads the whole message before the call |
| Delegate.DelegateThread.Command | linux/libreconos/libreconos.c:221-597 | one turn of the loop does what the parse of the waiting words says, also for bad and for missing words |
| Delegate.DelegateThread.Run | linux/libreconos/libreconos.c:208-600 | the loop performs exactly the session that the words on the link describe |
| SlotReset.MaskBits | linux/libreconos/libreconos.c:38-43 | bit i of the mask is the reset flag of slot i, and there are no other bits |
| SlotReset.ProcControl.BuildMask | linux/libreconos/libreconos.c:38-43 | the shift-and-or loop computes that mask |
| SlotReset.ProcControl.SlotReset | linux/libreconos/libreconos.c:28-48 | changes one reset flag and sends one command whose low half repeats the flags of all slots |
| PyString.JoinSplit | tools/mhs.py:59-62 | splitting at white space and joining with blanks gives the normal form of a text |
| PyString.SplitOnCollapse | tools/mhs.py:62-70 | collapsing white space and splitting at a character commute |
| MhsLine.TableOfWords | tools/mhs.py:59-73 | cutting up the joined words gives the same fields as cutting up the original text |
| MhsLine.ParsedIsLine | tools/mhs.py:58-73 | every accepted line has a word as type and at least one pair, with fields in normal form and without separators |
| MhsLine.ParsePrint | tools/mhs.py:75-79 | parsing undoes printing for every line the parser can return |
| MhsLine.ParsePrintParse | tools/mhs.py:58-79 | parse, print, parse gives the line of the first parse, for every accepted text |
| MhsGrammar.EntryIff | tools/mhs.py:58-73 | a line that counts is accepted as an entry if and only if it is a word and comma-separated fields of exactly one equals sign each; keys and values are the texts on both sides of it, white space aside |
| Mhs.ReadKeepsOk | tools/mhs.py:153-186 | every accepted file consists of lines and blocks that print to readable text |
| Mhs.ReadPCore | tools/mhs.py:113-119 | the printed lines of a block are read back as that block |
| Mhs.ParsePrintFile | tools/mhs.py:188-196 | parsing undoes printing for every structure the parser can return; the line numbers are those of the new text |
| Mhs.PrintForgets | tools/mhs.py:188-196 | what is printed does not depend on line numbers |
| Mhs.ParsePrintParse | tools/mhs.py:139-196 | for every accepted text whose blocks all have an INSTANCE: the printed text is accepted, gives the same structure apart from line numbers, and is printed as itself |
| MhsGrammar.SplitText | tools/mhs.py:152-153 | every text is a sequence of lines cut behind each newline |
| MhsGrammar.AcceptedIff | tools/mhs.py:139-186 | a text is accepted with a structure if and only if, but for blank lines and comments, it is made of exactly the entries and the BEGIN, entries, END blocks of that structure, in this order |
| MhsGrammar.SkippedLinesDoNotCount | tools/mhs.py:160-165 | a blank line or a comment anywhere in a text changes neither acceptance nor the structure, but for line numbers |
| MhsGrammar.OpenBlockIsRejected | tools/mhs.py:153-157 | a text that ends inside a block is rejected, whatever is in the block and before it |
| MhsCode.LineString | tools/mhs.py:75-79 | the loop over the pairs builds the printed line |
| MhsCode.MHSPCore.AddLine | tools/mhs.py:93-97 | an INSTANCE parameter names the block, any other line is appended |
| MhsCode.MHSPCore.String | tools/mhs.py:113-119 | the printed block, or failure when no INSTANCE was seen |
| MhsCode.MHS.Parse | tools/mhs.py:139-186 | the state loop accepts exactly the texts the specification accepts and builds the same structure |
| MhsCode.MHS.String | tools/mhs.py:188-196 | the printed file, or failure when some block has no INSTANCE |

## Left out

- SortDemo.Run: takes sorting one block as one step of the interleaving; NobodyElseReachesTheBlock shows that no other thread can reach the block meanwhile. Interleavings inside `recursive_merge` are covered the same way: no worker holds a block then.
- WorkerPoolRuns.ShutdownIff: a negative number of blocks. A hardware thread in slot 14 or 15 would share its link with process control (`reconos_init(14, 15)`, line 164), so such a slot counts as missing; the arrays themselves end at 16. Whether the platform has hardware in the slots below is not modelled.
- Merge.RecursiveMerge: a size that is not a whole number of blocks; the demo always passes whole blocks.
- BubbleSort.BubbleSort: a length of 0, for which `len - 1` wraps around, is not modelled; the demo always sorts whole blocks.
- Mailbox.MailboxIsFifo: a failing `malloc` or `sem_init`, and `mbox_destroy` while threads are inside.
- FslDriver.NoWakeupIsLostIffSetupWasQuiet: more than one reader per device, and the interrupt handler running on another processor.
- FslDriver.InterruptAccounts: holds of reads that begin after the setup. `cdev_add` (line 328) makes the device usable before line 337 initialises the wait queue and line 338 sets `irq_enabled`; a read that begins in between finds the flag cleared and calls `enable_irq` on a line that is not masked. Such reads are not modelled.
- NocThreads.WaitIsAnsweredIff: assumes that the hardware answers the exchange thread. Offsets and packets are arbitrary, `IsAlmostFull` may answer anything, timers may expire at any time, and every thread that can go on does so in the end. A zeroed interface is assumed, although the `memset` in line 186 clears only the size of a pointer.
- NocRing.WritePacket: a payload within 64 bytes of 4 GB, for which the sum in line 477 wraps around.
- NocRing.IntactIffFitting: runs have payloads of at most 50 bytes; no larger packet fits into the ring. Of the memory behind the ring only what the code stores there is described.
- NocRing.FaithfulIffCareful: takes the read offset as a byte offset, as the space check does; the unit in which the hardware reports it is not defined by the C code.
- SendQueue.ListAndSemaphoreAgree: the argument checks in front of `packetListAdd` and cancelled threads.
- MessageQueue.MessagesArriveInOrder: the one to three bytes behind the last whole word of a message, and failing allocations.
- Delegate.DelegateThread.Run: the effect of a call is an arbitrary answer per call; for a receive limit of 2^32-1 the allocation fails and the process dies when it uses the null pointer; other allocations succeed. Error texts and the two resets before the loop are not part of it.
- MhsCode.MHS.Parse: the file is its text; lines are modelled as values and blocks as objects. After an exception the partly filled object is not described.
- SlotReset.ProcControl.SlotReset: one call at a time. Several delegate threads call it on the shared flags without a lock, so an older mask can be sent after a newer one.
- `getValue`, `setValue`, `getPCores`, `delPCore` and `addEntry` of `mhs.py`: short lookups and edits beside parser and printer.
- The HW -> SW interface, stopping and cancelling of the NoC threads, and the commented-out code in `reconosNoC.c`.
- The page fault thread, cache and page directory access, ioctl, device registration and file descriptors: foreign calls.
- `check_data` and `cmp` of the sort demo: the comparison is on addresses; sortedness is stated directly.
- Timing, printing, the webcam demo, VHDL, shell scripts and the other Python tools.
