# Models and proofs for `computer_technologies`

A Dafny model of the parts of this course repository where something can go wrong between
processes, machines or machine words, with proofs of what that code does and does not keep.

| Files | Component | Main results |
|---|---|---|
| `Semaphores`, `Sharmem`, `SharmemPair`, `SharmemProgress`, `SharmemEnding`, `SharmemMachine` | `3_sem/Sharmem`: two programs share a page under seven SysV semaphores | Gate accounting for any number of processes with kills; output is a prefix of the file; the page is never held by both sides; once both sides are in the session the transfer completes; a death wakes the other side; every session ends and leaves the gates free; an early start can fail |
| `Signal` | `3_sem/Signal`: a file sent as SIGUSR1/SIGUSR2 | Received bits are a prefix of the file's bits, no signal is lost, no deadlock, termination with the file copied |
| `MessageQueue` | `3_sem/Queue`: children print in order | Order, at most one message, safe removal, no deadlock, bounded runs |
| `Ring`, `Relay`, `RelayRepair` | `3_sem/Select`: ring buffers in a chain of pipes | Each ring refines a FIFO queue; the bytes of the chain make up the file in all states exactly when no ring write takes more than is queued; when the requested write size is unsafe |
| `Calc`, `Division`, `Cluster` | `4_sem/Network`: distributed integration | Error bound of the quadrature, exact meaning of its lagging sample, two-level division equals one uniform grid, the total does not depend on machines or CPUs |
| `Affinity` | `4_sem/Network`: CPU grouping and thread placement | Grouping is right if and only if repeated core ids are the numbers of their slots; thread counts are balanced |
| `Words`, `Rounding`, `BitArray` | `4_sem/Bit_array` | Region operations as set operations with an exactness condition, every run of single-bit calls refines a set of numbers, growth, least power of two, search |

How the model is built:

* Each protocol is a state machine. A system call, an access to shared data, a signal delivery
  or a death is one atomic step; a list of events is any interleaving. Beside the step functions
  stands a class (`Machine`, `Transfer`, `Processes`, `InfoConnect`, `Bits`) whose methods change
  the same state in place and are proved to do exactly what the step functions say.
* What the operating system decides (which process runs, which pending signal is delivered, how
  many bytes a call returns, who is killed, whether a worker answers) is a parameter.
* Doubles are exact reals. Counts, sizes and indices are unbounded numbers; the 64-bit
  wrap-around of `roundup_word64_to_pow2` and of the rounding to words is written out. Words of
  the bit array are `bv64`; a shift by n places is n shifts by one place.

## Where the code does less than its purpose

Each of these is stated as a lemma, with the exact condition where there is one.

* Sharmem: the writer may pass `P (EMPTY)` and fail its peer check before the reader has joined
  (`SharmemPair.WriterMayFailEarly`); the check succeeds exactly when both are in the session
  (`SharmemPair.CheckStep`). The reader may exit with an error although the whole file is output,
  because the writer may leave first (`SharmemProgress.ReaderMayFailLate`).
* Select: `write` is asked for `empty` bytes although only `full` are queued. With something
  queued, this is sound for every return value exactly when `0 < empty <= full`
  (`Ring.RequestSafeIff`). After an EAGAIN the code goes on with -1, which is never harmless: it
  breaks the ring at the start of the buffer and when it is full, and otherwise sends the last
  byte twice (`Ring.EagainIsHarmful`, `Ring.EagainSendsTwice`). A write of an empty free run
  closes the ring's output with bytes still queued (`Relay.EmptyRequestCloses`).
  The chain holds the file in every state of a run exactly when neither happens
  (`Relay.FileConserved`). A broken ring may come back later in the run
  (`RelayRepair.BrokenRingMayRecover`).
* Network: the second sample of `CalcIntegral` lags one step, so the last cell is replaced by a
  copy of an early sample (`Calc.LagIdentity`). `get_mycpu_info` uses a repeated core id as an
  index, which stays inside the array and groups correctly exactly when every repeated core id is
  the number of the slot that was opened for it (`Affinity.GroupsByCoreIff`).
* Bit array: region calls count from the most significant bit of a word and all other calls from
  the least, so both mean the same bits by a region exactly when it is empty or made of whole
  words (`BitArray.SameNumberingIff`). A region inside one word that does not start the word gets
  its mask shifted away from it (`BitArray.RegionMaskExactIff`, `BitArray.SetRegionRightIff`).
  `1 << offset` is an `int` shift, right exactly for offsets below 31 (`BitArray.SetExactIff` and the
  same for clear, toggle and get). A search from inside a word skips the wrong end of that word,
  and is right for all arrays exactly from a word boundary (`BitArray.SearchRightIff`). A
  single-bit call beyond the end resizes to that index and does not touch the bit, which then
  still lies outside (`BitArray.SetTakesEffectIff`).

## Model

| member | source | states |
|---|---|---|
| SharmemMachine.Machine.Semop | 3_sem/Sharmem/Write/write.c:18-22 | an array of operations is tried in order on copies and takes effect as a whole or not at all; on failure nothing changes |
| Semaphores.SemopBalance | 3_sem/Sharmem/Write/write.c:48-58 | value and undo entry of every semaphore together change by the operations without SEM_UNDO only |
| Semaphores.UndoTakesBack | 3_sem/Sharmem/Write/write.c:14-22 | an exit takes back from every semaphore exactly what the array did to it with SEM_UNDO |
| SharmemMachine.Machine.SetValCall | 3_sem/Sharmem/Write/write.c:33-37 | SETVAL sets one semaphore and clears every process's undo entry for it |
| SharmemMachine.Machine.Play | 3_sem/Sharmem/Write/write.c:14-137 | after any list of events the counters in the semaphore set are the numbers of live processes past the gates and in the session, at most 1, 1 and 2 |
| SharmemMachine.Machine.PlayPair | 3_sem/Sharmem/Read/read.c:46-106 | a reader and a writer under any interleaving with kills: the output is a prefix of the file, all of it once the writer is past its loop, and the page has at most one holder |
| SharmemMachine.Machine.Transfer | 3_sem/Sharmem/Write/write.c:71-118 | from the session on, any scheduler that kills nobody and completes the writes comes to the end of the writer's loop with the whole file output |
| SharmemMachine.Machine.RunToEnd | 3_sem/Sharmem/Read/read.c:68-119 | once the session has begun, any scheduler, with kills and short writes, brings both processes to their end and leaves both gates and NUM_PROC at 0 |
| Sharmem.SemopCounters | 3_sem/Sharmem/Write/write.c:48-58 | every successful operation array changes the three counters by exactly the caller's change of membership, and its undo vector takes exactly that back |
| Sharmem.GateOpensIff | 3_sem/Sharmem/Write/write.c:14-22 | a gate lets a process through exactly when no live process of its kind is past it |
| Sharmem.JoinsEmptySessionIff | 3_sem/Sharmem/Write/write.c:24-31 | a process goes on to join exactly when nobody is in the session |
| Sharmem.SetValIsFinal | 3_sem/Sharmem/Read/read.c:31-35 | SETVAL gives FULL 0 or EMPTY 1, and no later death of a process that was there before changes it |
| Sharmem.ShortReadsToo | 3_sem/Sharmem/Write/write.c:96-100 | the writer goes on with every count from 1 to the rest of the file and 4088, and at the end of the file with 0 only |
| Sharmem.ExitKeepsAccounting | 3_sem/Sharmem/Write/write.c:14-22 | a death at any point leaves the counters equal to the numbers of remaining members |
| Sharmem.StepKeepsAccounting | 3_sem/Sharmem/Read/read.c:12-20 | every step, kill or start of a program keeps the gate accounting |
| Sharmem.GateAccounting | 3_sem/Sharmem/Write/write.c:14-137 | any number of readers and writers, started and killed in any order: ALONE_RD and ALONE_WR count the live processes past their gate and are at most 1, NUM_PROC counts those in the session and is at most 2 |
| SharmemPair.CheckStep | 3_sem/Sharmem/Write/write.c:86-94 | the peer check passes exactly when the peer is in the session, and otherwise ends the process |
| SharmemPair.JoinEffect | 3_sem/Sharmem/Write/write.c:14-46 | what passing the gate, waiting for an empty session and posting do to every semaphore and to the undo entries, and when they block |
| SharmemPair.SyncEffect | 3_sem/Sharmem/Write/write.c:48-58 | joining takes one SYNC token, adds one to NUM_PROC, and leaves an undo of one token for the other side |
| SharmemPair.EndEffect | 3_sem/Sharmem/Write/write.c:127-137 | what the two end operations do to every semaphore and to the undo entries |
| SharmemPair.ExitKeeps | 3_sem/Sharmem/Write/write.c:48-58 | the invariant of the pair, with the token a death leaves for the other side, survives a death at any point |
| SharmemPair.StepKeeps | 3_sem/Sharmem/Read/read.c:68-104 | every step of either side keeps the invariant of the pair |
| SharmemPair.OutputIsPrefix | 3_sem/Sharmem/Read/read.c:46-106 | any interleaving and any kills: what the reader has written is a prefix of the writer's file |
| SharmemPair.WriterLeavesAfterWholeFile | 3_sem/Sharmem/Write/write.c:77-118 | a writer that left its loop through the zero-length chunk has had its whole file output |
| SharmemPair.PageExclusion | 3_sem/Sharmem/Write/write.c:77-116 | with both in the session exactly one of EMPTY token, FULL token, writer between P and V, reader between P and V holds |
| SharmemPair.PageIsPadded | 3_sem/Sharmem/Write/write.c:104-107 | past the stored length the page holds zeros, except between the copy and the store of the length |
| SharmemPair.WriterMayFailEarly | 3_sem/Sharmem/Write/write.c:86-94 | for every file there is a run without kills in which the writer exits with an error before anything is sent |
| SharmemProgress.StepAdvances | 3_sem/Sharmem/Write/write.c:71-118 | with both in the session, every step that changes something (no kill, no short write) keeps both there and leaves fewer steps to do |
| SharmemProgress.SomeoneCanRun | 3_sem/Sharmem/Read/read.c:62-106 | with both in the session and the writer in its loop, one of the two can always go on |
| SharmemProgress.SessionIsReached | 3_sem/Sharmem/Write/write.c:48-58 | for every file a run reaches the state with both sides in the session |
| SharmemProgress.TransferIsBounded | 3_sem/Sharmem/Write/write.c:71-118 | from any reachable state with both in the session, without kills and short writes, at most 12 times the file length plus 14 more steps are made |
| SharmemProgress.TransferCompletes | 3_sem/Sharmem/Write/write.c:71-118 | from there the two are never stuck and never fail before the writer leaves its loop, and then the output is the file |
| SharmemProgress.ReaderMayFailLate | 3_sem/Sharmem/Read/read.c:77-85 | for every file there is a run without kills that outputs the whole file and in which the reader's last peer check still ends it with an error |
| SharmemEnding.DeathWakesPeer | 3_sem/Sharmem/Write/write.c:52-57 | a kill in the session leaves at least one of the tokens the other side waits for and takes the dead process out of NUM_PROC |
| SharmemEnding.CheckAfterDeath | 3_sem/Sharmem/Read/read.c:77-85 | the next peer check of the other side ends it |
| SharmemEnding.ReaderLeavesLoop | 3_sem/Sharmem/Read/read.c:97-106 | the reader goes on after a chunk that is not empty, and to its end operation once the writer is past its loop |
| SharmemEnding.StepCloses | 3_sem/Sharmem/Read/read.c:68-119 | with one side gone or past its loop, every event that changes something leaves fewer steps |
| SharmemEnding.SomeoneCloses | 3_sem/Sharmem/Read/read.c:68-119 | with one side gone or past its loop, no call blocks any more: whoever is there can go on |
| SharmemEnding.SessionIsBounded | 3_sem/Sharmem/Write/write.c:71-137 | once both have been in the session, at most 12 times the file length plus 34 more events change anything, with any kills and short writes |
| SharmemEnding.SessionEnds | 3_sem/Sharmem/Write/write.c:71-137 | until both are gone one of the two can go on, and when both are gone both gates and NUM_PROC are 0 |
| Signal.StoreBit | 3_sem/Signal/main.c:80-83 | storing bit i on top of the i lowest bits gives the i + 1 lowest bits |
| Signal.MaskIsShift | 3_sem/Signal/main.c:68-70 | the mask used in the proofs is one shifted left by i |
| Signal.ReceivedPrefix | 3_sem/Signal/main.c:66-95 | the invariant makes the received bits a prefix of the file's bits |
| Signal.TransferIsSafe | 3_sem/Signal/main.c:66-95 | in every reachable state the bytes written plus the bits of the partial byte are a prefix of the file's bits, least significant first; a parent that exited did so between letters with the whole file written |
| Signal.NoSignalIsLost | 3_sem/Signal/main.c:122-142 | no signal is sent while it is already pending at its receiver, and data, ack and SIGCHLD are never outstanding together |
| Signal.OnlySuspendBlocks | 3_sem/Signal/main.c:72-75 | a process that has not exited is kept from running exactly by a `sigsuspend` with nothing pending |
| Signal.StepDecreases | 3_sem/Signal/main.c:68-87 | every possible step keeps the invariant and decreases a measure on remaining bits |
| Signal.NoDeadlock | 3_sem/Signal/main.c:66-153 | every reachable state is finished or has a possible step |
| Signal.RunShrinks | 3_sem/Signal/main.c:66-153 | runs are bounded by the measure |
| Signal.Transfer.StoreBit | 3_sem/Signal/main.c:80-83 | after the received bit is put in, the current letter holds exactly the i + 1 lowest bits of the byte on its way |
| Signal.Transfer.ParentRuns | 3_sem/Signal/main.c:66-95 | every step of the parent, in place, keeps the invariant and leaves less to do |
| Signal.Transfer.ChildRuns | 3_sem/Signal/main.c:112-153 | every step of the child, in place, keeps the invariant and leaves less to do |
| Signal.Transfer.Play | 3_sem/Signal/main.c:66-153 | under any scheduler the two processes end, with the output equal to the file |
| MessageQueue.ReceiveFirst | 3_sem/Queue/msgrcv.txt:39-57 | the first message of a positive type is taken and the others keep their order |
| MessageQueue.OnlyReceivingBlocks | 3_sem/Queue/main.c:33-50 | a process that has not exited is kept from running exactly by a `msgrcv` whose message is not there |
| MessageQueue.StepDecreases | 3_sem/Queue/main.c:19-68 | every possible step keeps the invariant and decreases the number of steps left |
| MessageQueue.PrintsInOrder | 3_sem/Queue/main.c:19-66 | for every n and interleaving the printed numbers are 1..k, and the queue holds at most one message |
| MessageQueue.RemovedWhenDone | 3_sem/Queue/main.c:68 | the queue is removed exactly when the parent is through, and then all n lines are printed and every child has done its last queue operation |
| MessageQueue.NoDeadlock | 3_sem/Queue/main.c:19-68 | no reachable state is stuck, and a run has at most 8n + 3 steps |
| MessageQueue.Processes.TakeMessage | 3_sem/Queue/msgrcv.txt:39-57 | the scan takes out exactly the first message of the type, or nothing |
| MessageQueue.Processes.ParentRuns | 3_sem/Queue/main.c:19-40 | every step of the parent, in place, keeps the invariant and leaves fewer steps |
| MessageQueue.Processes.ChildRuns | 3_sem/Queue/main.c:42-66 | every step of child k, in place, keeps the invariant and leaves fewer steps |
| MessageQueue.Processes.Play | 3_sem/Queue/queue.c:37-58 | under any scheduler all processes end, with 1..n printed and the queue removed |
| Ring.CountsAreContiguousRuns | 3_sem/Select/main.c:182-188 | `full` is the contiguous queued run and `empty` the contiguous free run, and the read cursor follows the queued bytes |
| Ring.ReadAppends | 3_sem/Select/main.c:243-255 | a read of 1..empty bytes keeps the ring and appends exactly these bytes |
| Ring.WriteTakes | 3_sem/Select/main.c:273-285 | a write of 1..full bytes keeps the ring and takes exactly the oldest bytes |
| Ring.RequestSafeIff | 3_sem/Select/main.c:260-285 | for every return of the code's write request the descriptor stays open, the cursors describe a ring and what was sent is the front of the queue, if and only if 0 < empty <= full |
| Ring.WriteKeepsIff | 3_sem/Select/main.c:273-285 | the cursors after a write still describe a ring exactly when no more than `full` bytes were taken |
| Ring.RequestUnsafeExample | 3_sem/Select/main.c:260 | every ring the parent uses, fresh and with one byte queued: its next write may return size - 1, which breaks the cursors |
| Ring.EagainKeepsIff | 3_sem/Select/main.c:260-285 | the ring is still valid after EAGAIN exactly when the write cursor is not at the start and the ring is not completely full |
| Ring.EagainIsHarmful | 3_sem/Select/main.c:260-285 | on that condition the byte before the write cursor is queued again, and otherwise the cursor state is broken |
| Ring.EagainSendsTwice | 3_sem/Select/main.c:243-285 | after a write of k bytes and any reads in between, the byte queued again is the last of those k, on the condition on the cursors before the call |
| Ring.SizeBounds | 3_sem/Select/main.c:176 | every ring has between 243 and 128000 bytes, and the ones the loops use have at least 729 |
| Ring.SizesTriple | 3_sem/Select/main.c:176 | the last ring has 243 bytes and each one before it three times as many, up to 128000 |
| Ring.RunsEndWhereTheyDid | 3_sem/Select/main.c:243-285 | for any ring and any count, sound or not: the cursors move by the count or to the start, and the queued and the free run end where they did |
| Ring.SentBytes | 3_sem/Select/main.c:260 | a write sends the bytes from the write cursor on, and those behind the buffer when it is too long |
| Ring.InfoConnect.constructor | 3_sem/Select/main.c:176-188 | a new ring is valid and empty |
| Ring.InfoConnect.Store | 3_sem/Select/main.c:231 | the kernel stores the bytes read at the read cursor and nowhere else |
| Ring.InfoConnect.Fill | 3_sem/Select/main.c:229-256 | the read step in place, as an append to the queue |
| Ring.InfoConnect.Drain | 3_sem/Select/main.c:258-286 | the write step in place for every return: 0 closes, 1..full removes exactly what was sent from the front of the queue, more than full breaks the ring, and after EAGAIN a byte is queued again or the ring is broken, by a condition on the cursors before |
| Relay.MoveKeepsFlow | 3_sem/Select/main.c:229-286 | moving the front of one place to the end of the next keeps the whole byte sequence |
| Relay.ChildReadMoves | 3_sem/Select/main.c:134 | a child's read moves bytes from its input to its buffer and nothing else |
| Relay.ChildWriteMoves | 3_sem/Select/main.c:136 | a child's write moves bytes from its buffer to its pipe and nothing else |
| Relay.RingReadMoves | 3_sem/Select/main.c:229-256 | the parent's read moves bytes from a child's pipe into the ring and nothing else |
| Relay.RingWriteMoves | 3_sem/Select/main.c:258-286 | a write of no more than is queued moves bytes from the ring into the next child's pipe and nothing else; a closing one moves nothing |
| Relay.ConservesIff | 3_sem/Select/main.c:229-286 | one call keeps the rings sound and the bytes of the chain if and only if it is not a ring write of more than is queued and not one that goes on after EAGAIN |
| Relay.RequestConservesIff | 3_sem/Select/main.c:258-260 | before the call: the ring's write conserves the bytes whatever count it returns if and only if empty <= full |
| Relay.EmptyRequestCloses | 3_sem/Select/main.c:260-271 | with an empty free run a write can only return 0, and then the ring is never written out again, although bytes are queued |
| Relay.ShorterIsPossible | 3_sem/Select/main.c:134-136 | every call may also return a smaller count |
| Relay.LongestReads | 3_sem/Select/main.c:229-231 | a child with an empty buffer may read up to its input and 4096, a ring up to its input and its free run |
| Relay.RunConserves | 3_sem/Select/main.c:227-286 | a run of such calls keeps every ring sound and loses, doubles or reorders no byte of the chain |
| Relay.FileConserved | 3_sem/Select/main.c:131-286 | any number of children and any run of the code's own calls: before and after every call output, bytes in flight and unread file make up the file over sound rings, if and only if no ring write took more than was queued or went on after EAGAIN; then the output is a prefix |
| RelayRepair.BrokenRingMayRecover | 3_sem/Select/main.c:229-286 | a run from the start in which a ring write takes more than is queued, so some state is not sound, and at whose end every ring is sound again and all bytes are there |
| Relay.GuardedConserves | 3_sem/Select/main.c:258-260 | with empty <= full at every ring write and no EAGAIN, the code's own requests conserve the file, whatever they return |
| Calc.CalcIntegral | 4_sem/Network/calc.c:8-29 | the loop ends, and returns the sum that the other lemmas are about |
| Calc.StepsReach | 4_sem/Network/calc.c:21-23 | the loop makes the least number of steps that reaches the end |
| Calc.LagIdentity | 4_sem/Network/calc.c:17-26 | with n steps, the least number that reaches the end, the result is the trapezoid rule on the first n - 1 cells plus one repeated early sample |
| Calc.Symmetric | 4_sem/Network/calc.c:10-14 | swapped bounds give the same result, without a change of sign |
| Calc.IntegralError | 4_sem/Network/calc.c:8-29 | for 0 <= begin <= end the result is within 2s((end+s)^2 - begin^2) + s(end+s)^2 of the integral of x * x |
| Calc.UnitError | 4_sem/Network/calc.c:4-29 | on the unit interval the result is within 0.00000031 of the integral |
| Division.GridTiles | 4_sem/Network/server.c:51-85 | the uniform grid covers the interval without gaps in equal cells |
| Division.DivideWork | 4_sem/Network/server.c:45-87 | the smaller of machines and threads get work, each but the last the quotient of the threads and the last the rest, in order over the interval; an error for no machines or no threads |
| Division.FillThreadInfo | 4_sem/Network/pthread.c:156-193 | the records get the cells of the machine's own grid in order, the spare ones the first cell; an error for no threads |
| Division.TaskGrid | 4_sem/Network/pthread.c:162-183 | a worker's own grid is its run of cells of the whole grid |
| Division.DivisionIsUniformGrid | 4_sem/Network/server.c:51-85 | machine by machine and thread by thread the cells are exactly the uniform grid of the interval, each worker gets a thread, and the threads add up |
| Cluster.RunThreads | 4_sem/Network/calc.c:31-36 | every thread writes the integral over its own record's bounds into its record |
| Cluster.JoinThreads | 4_sem/Network/calc.c:122-135 | the first n results are added up in order |
| Cluster.Integrate | 4_sem/Network/calc.c:38-135 | a worker starts the larger of its threads and CPUs, the spare ones on the first cell, and its answer is the sum over its grid |
| Cluster.GetResult | 4_sem/Network/server.c:233-254 | the sum of all answers, or an error exactly when one is missing |
| Cluster.AnswersSum | 4_sem/Network/server.c:236-252 | the answers of all workers add up to the sum over all their cells |
| Cluster.RunServer | 4_sem/Network/server.c:233-254 | the total is the sum over the uniform grid, independent of the number of machines and of their CPUs; an error exactly when an answer is missing or the request is empty |
| Cluster.TotalError | 4_sem/Network/server.c:236-254 | the total is within the sum of the cells' bounds of the integral |
| Affinity.FindInArray | 4_sem/Network/pthread.c:3-9 | the first position of the element, or -1 exactly when it is not there |
| Affinity.AddCpu | 4_sem/Network/pthread.c:11-23 | the slot is written inside the (possibly grown) array and the slots before it are kept |
| Affinity.AddProcessor | 4_sem/Network/pthread.c:25-37 | the element is appended inside the allocation, which grows when full |
| Affinity.GetMyCpuInfo | 4_sem/Network/pthread.c:54-113 | for every list of core ids: the grown arrays hold exactly the groups and no write leaves its allocation, or the cpus array is overrun, and that exactly when a repeated core id is not the index of a slot |
| Affinity.WhereLists | 4_sem/Network/pthread.c:64-97 | the reference list of a core: all its processors, only them, in increasing order |
| Affinity.NumberingIsSafe | 4_sem/Network/pthread.c:89-92 | if every repeated core id is the number of the slot opened for it, no index leaves the cpus array |
| Affinity.SlotsOpened | 4_sem/Network/pthread.c:64-86 | the number of groups is the number of different core ids seen |
| Affinity.GroupsByCoreIff | 4_sem/Network/pthread.c:64-97 | for every list of core ids: the code stays in its array and every core's slot lists exactly its processors in increasing order, if and only if every repeated core id is the number of the slot opened for it |
| Affinity.SlotHolds | 4_sem/Network/pthread.c:64-97 | for any core ids, right or wrong: a slot holds the processors put there since it was opened, in order, and what was there before is lost |
| Affinity.GroupsByIdIff | 4_sem/Network/pthread.c:64-97 | moreover slot g belongs to core id g for all cores, if and only if core ids are numbered in order of first appearance |
| Affinity.GroupsArePartition | 4_sem/Network/pthread.c:64-97 | if every repeated core id is the number of its slot, the groups are a partition of the processors into non-empty lists |
| Affinity.SetAttrs | 4_sem/Network/pthread.c:116-128 | every thread is bound to the processor given by its number, round robin over cores and then over a core's processors |
| Affinity.LoadValue | 4_sem/Network/pthread.c:119 | a core gets the quotient, and the first ones one thread more |
| Affinity.SlotLoadIsLoad | 4_sem/Network/pthread.c:119-120 | a core's threads are dealt out over its processors like all threads over the cores |
| Affinity.CountOnCoreIsLoad | 4_sem/Network/pthread.c:118-124 | the threads placed on processors of a core are those whose number is the core's modulo the number of cores |
| Affinity.CoresBalanced | 4_sem/Network/pthread.c:116-128 | the numbers of threads placed on two cores differ by at most 1 |
| Affinity.ProcessorsBalanced | 4_sem/Network/pthread.c:116-128 | thread counts of two processors of one core differ by at most 1 |
| Affinity.AllBalanced | 4_sem/Network/pthread.c:116-128 | with cores of equal size, thread counts of any two processors differ by at most 1 |
| Rounding.SmearStep | 4_sem/Bit_array/bit_array.c:116-121 | or-ing with the shift by m doubles the run of ones below the leading one |
| Rounding.Smear | 4_sem/Bit_array/bit_array.c:116-121 | after the six steps all bits below the leading one are set |
| Rounding.RoundupWord64ToPow2 | 4_sem/Bit_array/bit_array.c:113-127 | the least power of two that is at least the argument; 1 for 0 and where that power does not fit in 64 bits |
| Rounding.LeastPow2IsLeast | 4_sem/Bit_array/bit_array.c:113-127 | no smaller power of two will do |
| Words.MaskBits | 4_sem/Bit_array/bit_array.c:103-109 | the mask has ones exactly at the first `length` positions from the most significant bit |
| Words.ShiftedMaskBits | 4_sem/Bit_array/bit_array.c:443 | shifted by an offset it covers only the first `length - offset` positions |
| Words.HighIsLow | 4_sem/Bit_array/bit_array.c:103-109 | position p from the most significant bit is position 63 - p from the least significant |
| Words.LowestBitIsLowest | 4_sem/Bit_array/bit_array.c:553 | `__builtin_ffsll` minus one: a bit that is set, with none below it |
| Words.AndOneBit | 4_sem/Bit_array/bit_array.c:398 | a word masked with one bit is nonzero exactly when that bit is set |
| BitArray.RegionMaskExactIff | 4_sem/Bit_array/bit_array.c:435-455 | the mask of a region is exactly its bits (from each word's most significant bit) if and only if the region is empty, spans words, or starts a word |
| BitArray.SameNumberingIff | 4_sem/Bit_array/bit_array.c:398-455 | the mask of a region is exactly its bits in the numbering of the single-bit and find calls if and only if the region is empty or made of whole words |
| BitArray.SetRegionRightIff | 4_sem/Bit_array/bit_array.c:424-456 | setting a region is right for every array if and only if it is empty, spans words, or starts a word |
| BitArray.ClearRegionRightIff | 4_sem/Bit_array/bit_array.c:460-492 | the same for clearing |
| BitArray.ToggleRegionRightIff | 4_sem/Bit_array/bit_array.c:496-528 | the same for toggling |
| BitArray.SetIsUnion | 4_sem/Bit_array/bit_array.c:424-456 | setting a region is union with it |
| BitArray.ClearIsDifference | 4_sem/Bit_array/bit_array.c:460-492 | clearing a region is difference |
| BitArray.ToggleIsSymmetricDifference | 4_sem/Bit_array/bit_array.c:496-528 | toggling a region is symmetric difference |
| BitArray.ToggleTwice | 4_sem/Bit_array/bit_array.c:496-528 | toggling any region twice, well placed or not, gives every word back |
| BitArray.Bits.SetRegion | 4_sem/Bit_array/bit_array.c:424-456 | every word is or-ed with the region's mask; a valid array stays valid if the region lies in the words in use |
| BitArray.Bits.ClearRegion | 4_sem/Bit_array/bit_array.c:460-492 | every word is cleared by the same mask |
| BitArray.Bits.ToggleRegion | 4_sem/Bit_array/bit_array.c:496-528 | every word is xor-ed with the same mask |
| BitArray.WordsForBits | 4_sem/Bit_array/bit_array.c:97 | the words of a size are as many as its bits need and no more, and none at all past the limit of the rounding |
| BitArray.Bits.constructor | 4_sem/Bit_array/bit_array.c:176-188 | as many zero words as the bits need, the right capacity, and a valid array exactly when rounding to words does not wrap |
| BitArray.Bits.Resize | 4_sem/Bit_array/bit_array.c:133-170 | growing and shrinking: as many words as the bits need, common words kept, others zero up to the capacity, which only grows, to the least power of two that fits, in a block eight times as large |
| BitArray.Bits.ZeroWords | 4_sem/Bit_array/bit_array.c:160-166 | exactly the given words become zero |
| BitArray.Bits.SetBit | 4_sem/Bit_array/bit_array.c:346-361 | one word of the array changes by the single-bit mask; beyond the end the array only grows |
| BitArray.Bits.ClearBit | 4_sem/Bit_array/bit_array.c:365-380 | the same for clearing |
| BitArray.Bits.ToggleBit | 4_sem/Bit_array/bit_array.c:403-418 | the same for toggling |
| BitArray.Bits.GetBit | 4_sem/Bit_array/bit_array.c:384-399 | the masked test, or false and growth beyond the end |
| BitArray.Bits.Play | 4_sem/Bit_array/bit_array.c:346-418 | a run of single-bit calls keeps the array valid and gives the value of the run |
| BitArray.SetExactIff | 4_sem/Bit_array/bit_array.c:360 | setting a bit sets that bit alone, whatever the C shift yields, if and only if the offset is below 31 |
| BitArray.ClearExactIff | 4_sem/Bit_array/bit_array.c:379 | the same for clearing |
| BitArray.ToggleExactIff | 4_sem/Bit_array/bit_array.c:417 | the same for toggling |
| BitArray.GetExactIff | 4_sem/Bit_array/bit_array.c:398 | the same for reading |
| BitArray.SetTakesEffectIff | 4_sem/Bit_array/bit_array.c:354-360 | a bit not yet set is set after the call, and inside the array, if and only if it was below the end before |
| BitArray.GrownIsSound | 4_sem/Bit_array/bit_array.c:141-162 | growth keeps every old word, words past those in use are zero, the capacity is again max (2, least power of two) |
| BitArray.OneCapacity | 4_sem/Bit_array/bit_array.c:180-185 | the capacity of a size is determined: the search for the least power of two finds it and nothing else fits |
| BitArray.StepAgrees | 4_sem/Bit_array/bit_array.c:346-418 | one single-bit call acts as on a size and a set of numbers, and get answers membership |
| BitArray.RunIsSound | 4_sem/Bit_array/bit_array.c:133-194 | over any run of single-bit calls the unused words stay zero, the capacity stays right and no word is given up |
| BitArray.RunAgrees | 4_sem/Bit_array/bit_array.c:346-418 | any run of single-bit calls on offsets below 31 refines the same calls on a set of numbers |
| BitArray.EmptyAgrees | 4_sem/Bit_array/bit_array.c:176-188 | a new array is the empty set |
| BitArray.CandidatesIff | 4_sem/Bit_array/bit_array.c:546-547 | the bits a search looks at are those from start on if and only if start is a word boundary |
| BitArray.SearchRightIff | 4_sem/Bit_array/bit_array.c:535-609 | a search is right for every array and every size if and only if it starts at a word boundary; otherwise an array with a wrong answer is given |
| BitArray.LowestHit | 4_sem/Bit_array/bit_array.c:551-558 | the lowest one of the word searched is the least candidate hit in it, and a zero word has none |
| BitArray.AlignedSearch | 4_sem/Bit_array/bit_array.c:535-609 | from a word boundary the answer is the least set (clear) bit in range, and no answer means there is none |
| BitArray.Bits.FindSetBit | 4_sem/Bit_array/bit_array.c:535-570 | the least set candidate below num_of_bits, or not found exactly when there is none |
| BitArray.Bits.FindClearBit | 4_sem/Bit_array/bit_array.c:574-609 | the least clear candidate below num_of_bits, or not found exactly when there is none |

## Left out

- Sharmem: creating, deleting and re-creating the segment and the semaphore set, and errors of
  `open`, `close` and `read`; an error exit is a kill.
- Sharmem: an exit applies the undo vector as one step and clamps values at 0, as Linux does.
- Sharmem: progress before both sides are in the session, and page exclusion for many restarted
  processes with kills (the SYNC_* tokens carry no undo).
- Signal: errors of system calls, and PR_SET_PDEATHSIG.
- Queue: errors of `msgsnd`, `msgrcv` and `fork`, the queue's capacity, and messages left over
  from an earlier program.
- Select: pipe capacities, end of file, closing of descriptors and termination. The output is what
  the last child writes to its pipe to the parent: the test for standard output compares with
  `num_proc`, which no child number reaches (`3_sem/Select/main.c:119`), and the parent's loops
  leave that pipe out.
- FileConserved: a ring read returns at least one byte, and a run is followed as long as a ring stores inside its buffer and sends from its buffer or the memory behind it, because after a store outside of the buffer nothing is defined.
- TransferCompletes: covers runs without kills and short writes only, and ends where the writer leaves its loop, because after that the reader may still fail (see `SharmemProgress.ReaderMayFailLate`).
- Network: floating-point rounding, UDP discovery, TCP connections, keepalive, timeouts, memory and
  thread errors, and the number of CPUs on the server, which the code computes and then ignores.
- RunServer: the workers compute one after the other, and an answer arrives or not as a parameter, because each one touches only its own record.
- Integrate: the threads run one after the other, because each reads and writes only its own record.
- GetMyCpuInfo: reading `/proc/cpuinfo` and the limit of 256 processors are not modelled, `struct cpu` is a value whose memory is a sequence of explicit length, and the model stops at a write outside the cpus array, because nothing is defined after it.
- SetAttrs: at least one core and one processor per core, because the code divides by these counts.
- Bit array: allocation failures, null pointers, a byte size of 2^64 (capacity 2^58), the
  fault-injecting allocators, `bit_array_dump`, `bit_array_foreach` and `bit_array_length`.
- SetRegion: the region must lie inside the buffer, because the code does not check it (the same for ClearRegion and ToggleRegion).
- FindSetBit: an unchecked read of the first word after the buffer gives an arbitrary word, because nothing else is known of it (the same for FindClearBit).
- `4_sem/Integral`: one machine's threads add rectangles under `x * atan (x)`. It has the same
  tiling as `4_sem/Network` without the division among machines.
- `3_sem/Fifo`: a writer and a reader find each other through a well-known FIFO and then copy a
  file through a private one. What it needs is rendezvous timeouts, which the model has no clock for.
- `3_sem/Test_task`: six exercises (counting, copying a file, forking, exec, a racing counter, one
  pipe). They share no code with the components above.
- Argument parsing, debug output and Makefiles.
