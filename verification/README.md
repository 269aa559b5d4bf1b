# Verification of the core algorithms

A Dafny model of the algorithms and protocols at the heart of the library, with proofs. `dafny verify
dfyconfig.toml` checks all of it. Each component has a specification on values (functions and a state
machine), theorems about it, and the code itself on mutable state, proved to do what the specification
says.

| component | specification and theorems | code on mutable state |
|---|---|---|
| MCS queue lock | `McsLock`, `McsTheorems`, `McsCalls` | `McsMachine` |
| list sort | `MergeSort` | `ListSort` |
| read-copy-update | `Rcu`, `RcuGrace`, `RcuExact`, `RcuReaders` | `RcuMachine` |
| exceptions | `Except`, `ExceptCorrect`, `ExceptFinally`, `ExceptLaws` | `ExceptMachine` |
| timer wheel | `TimerTable`, `TimerExact`, `TimerOrder`, `TimerCommands`, `TimerSlots` | `TimerWheel` |
| pool allocator | `Pool` | class `Pool.Pool`, `PoolRuns` |
| message framing | `Frames` | `Receiver` |
| thread pool | `ThreadPool`, `ThreadPoolRuns`, `ThreadPoolCalls` | `ThreadPoolMachine` |
| domain trie | `Trie`, `TrieSearch`, `TrieWildcards`, `TrieOrder`, `TrieMap`, `Domains` | `TrieNodes` |
| DNS messages | `DnsNames`, `DnsCompression`, `DnsAddress`, `Sections`, `Dns`, `DnsExample` | `DnsParser`, `DnsResponse` |

`Wrappers`, `Sequences`, `Bytes` and `Modulo` are shared helpers.

Concurrent components are step relations over any number of threads. One step is one atomic operation
on shared memory, memory is sequentially consistent, and a schedule is any sequence of threads. The
methods of the `Machine` classes perform such operations in place; `RcuMachine.Machine.Synchronize` is a
whole call, with the other threads running in between.

## Where the code and what is said of it differ

The models follow the code.

* **RCU.** The comment at include/rcu.h:294-300 says that the second scan takes care of readers that
  enter late. It tests the parity of before the flip, so a reader that loads the index and stalls
  across a whole flip before it sets its bit is not waited for by the next grace period.
  `StalledReaderHoldsFreed` is such a run, `WaitsExactlyForCurrentParity` says which sections are waited
  for, and `GracePeriod`, `QuietFlipsSuffice` and `AtomicReadLockIsSafe` say when it is safe.
* **Exceptions.** An exception raised in a handler leaves the TRY at once and its FINALLY is skipped:
  `FinallySkippedIffHandlerRaises` says exactly when, and `SkippedFinally` is such a program.
* **Timer wheel.** A timer of cycle 0 goes to the slot of the current tick and fires a whole turn later:
  `FirstFiring`. A timer that is deleted by a callback of the tick in which it is due still fires in it:
  `TickLogs`, and `DeletedStillFires` is such a run.
* **Pool.** mpool_cleanup_add does not check the size of the data. If it exceeds what an empty block
  holds, the block is overrun: `CleanupAdd`.
* **Trie.** A removal clears the value of every ancestor as soon as no label is left to pop, even if the
  name itself was never bound: `RemoveIsExact`, `RemoveUnbindsParent`. A search stops at an unbound node of
  exactly the name, so a wildcard listed behind that node is not found: `GetFinds`,
  and `HiddenWildcard` is such a tree.
* **DNS.** A compression pointer ends a name and is not followed: the text is that of the labels before
  it. `TextIsWhole` says when this is the whole name, and `CompressedLosesLabels` is a name of which it is
  not. A length byte whose high bits are 01 or 10 is taken as a label of up to 191 bytes.

## Model

| member | source | states |
|---|---|---|
| `McsLock.NextKeepsInv` | src/mcslock.c:31-85 | every atomic step of lock and unlock, by any of any number of threads, keeps the invariant: the threads that exchanged the tail and have not released form a queue from the owner to `*lock`, each linked to its successor exactly when that successor has stored itself |
| `McsLock.LinkKeepsQueue` | src/mcslock.c:45-51 | the link store goes to the node right before the thread in the queue, whose next pointer is still NULL, and keeps the queue intact |
| `McsLock.DequeueKeepsQueue` | src/mcslock.c:61-84 | only the head of the queue completes an unlock, and what is left is again a queue whose head has been told to proceed or holds the lock |
| `McsTheorems.MutualExclusion` | src/mcslock.c:31-85 | in every interleaving at most one thread is between the return of lock and the end of unlock |
| `McsTheorems.FirstComeFirstServed` | src/mcslock.c:36-51 | threads enter in the order in which they exchanged the tail |
| `McsTheorems.LinkTarget` | src/mcslock.c:48 | the predecessor that is linked to is still queued, and not linked to anyone else |
| `McsTheorems.HandoverTarget` | src/mcslock.c:84 | the store of PROCEED goes to the immediate successor of the owner, which has stored WAIT and spins: it cannot be overwritten |
| `McsTheorems.GrantPersists` | src/mcslock.c:51-84 | a handover is never lost: whatever the other threads do meanwhile, the next step of the granted thread enters, and nobody enters before |
| `McsTheorems.SomeoneCanMove` | src/mcslock.c:45-84 | no deadlock: while a thread waits, one at or ahead of it in the queue has a step that is not a blocked spin |
| `McsTheorems.StepMeasure` | src/mcslock.c:45-84 | no step, not even a new exchange, lets the measure of a waiting thread grow, and each unblocked step at or ahead of it makes it smaller |
| `McsTheorems.WaiterEntersWithin` | src/mcslock.c:31-85 | a waiting thread enters within as many fair rounds as its measure says |
| `McsTheorems.EveryWaiterEnters` | src/mcslock.c:31-85 | under fair scheduling the thread of the n-th exchange enters within seven rounds for each thread not behind it, if each holder goes on to unlock |
| `McsCalls.CallExchanges` | src/mcslock.c:31-41 | in every reachable state an idle thread exchanges the tail with its second step of lock, and holds the lock at once if nobody was there |
| `McsCalls.LockAndUnlock` | src/mcslock.c:31-75 | a lock and unlock without contention are four steps, which leave the lock free and the thread idle |
| `McsCalls.IdleExchanges` | src/mcslock.c:31-37 | whatever the others do, a thread that calls lock and is scheduled twice has exchanged the tail |
| `McsCalls.EveryCallerEnters` | src/mcslock.c:31-85 | so every call of lock returns: after two steps of the caller and seven fair rounds for each thread there is, it has entered, in the turn of its exchange |
| `McsMachine.Machine.Perform` | src/mcslock.c:31-85 | one step of any thread: no pointer that is stored through is bad, the state changes as specified and the invariant is kept; what the specified steps achieve is in `McsCalls` and `McsTheorems` |
| `McsMachine.Machine.Execute` | src/mcslock.c:31-85 | any schedule, in place, reaches the state of the specification's run |
| `MergeSort.MergeKeepsElements` | src/list_head.c:52-80 | merging two runs loses and adds nothing |
| `MergeSort.MergeOrdered` | src/list_head.c:52-80 | merging two ordered runs, the left one earlier in the input, gives an ordered run with equal elements in input order |
| `MergeSort.PassOrdersRuns` | src/list_head.c:36-85 | a pass turns ordered runs of length insize into ordered runs of length 2*insize |
| `MergeSort.SortFromOrders` | src/list_head.c:33-91 | the passes end with one ordered run of the same elements |
| `MergeSort.SortIsStable` | src/list_head.c:25-97 | for every total preorder the result is sorted, stable and a permutation of the input |
| `ListSort.Link` | include/list_generic.h:31-39 | adding a node between neighbours of a circular doubly linked list gives the list with the node inserted there |
| `ListSort.Unlink` | include/list_generic.h:51-61 | deleting a node leaves the rest a circular list and the node a list of its own |
| `ListSort.FindSecondRun` | src/list_head.c:42-49 | finds the start of the second run and the length of the first; the end of the ring is told by the identity of oldhead although earlier nodes have been rewritten |
| `ListSort.ChooseNext` | src/list_head.c:53-73 | the branches of the merge loop take the element that the merge of the two runs takes, and advance the right run |
| `ListSort.Emit` | src/list_head.c:74-79 | hangs a node behind the tail and rebuilds its prev pointer |
| `ListSort.MergeInPlace` | src/list_head.c:51-80 | the merge loop on pointers emits exactly the merge of the two runs, and every node not read yet keeps its original next pointer |
| `ListSort.SortPass` | src/list_head.c:36-85 | one pass in place: the result is a ring with the order of the specified pass and all prev links right, and nmerges is at most 1 exactly if the list has at most 2*insize nodes |
| `ListSort.SortRing` | src/list_head.c:33-91 | the outer loop terminates with the sorted ring |
| `ListSort.Splice` | src/list_head.c:93-96 | the head is put back; with an empty list too |
| `ListSort.Sort` | src/list_head.c:25-97 | list_sort leaves a well-formed circular doubly linked list through the head with exactly the sorted items, and for a total preorder this is the stable sort of the input |
| `RcuGrace.ApplyKeepsGrace` | include/rcu.h:254-324 | every shared-memory operation of any reader or updater keeps the invariant, if updaters take the lock only while the open sections hold the current parity |
| `RcuGrace.GracePeriod` | include/rcu.h:267-310 | if every section that is open when synchronize_rcu takes the lock holds the current-parity bit, all these sections have ended when it returns, and no freed version is held by a reader |
| `RcuGrace.QuietFlipsSuffice` | include/rcu.h:254-305 | the hypothesis is an invariant if no flip separates the two operations of a rcu_read_lock |
| `RcuGrace.AtomicLocksFlipQuietly` | include/rcu.h:254-257 | no flip can do so if rcu_read_lock is one atomic action |
| `RcuGrace.AtomicReadLockIsSafe` | include/rcu.h:254-324 | with an atomic rcu_read_lock, in every run a version replaced by rcu_assign_pointer and freed after synchronize_rcu is held by no reader |
| `RcuExact.WaitsExactlyForCurrentParity` | include/rcu.h:283-305 | for each section that is open when synchronize_rcu takes the lock, whatever the parity of the others: the call waits for it in every continuation if and only if it holds the current-parity bit |
| `RcuExact.StalledReaderHoldsFreed` | include/rcu.h:254-305 | a run in which a reader loads the index, stalls across a flip, then sets its bit, and holds a version that is freed: the comment on the second scan promises more than the code does |
| `RcuReaders.ReadersNeverWait` | include/rcu.h:254-265 | readers never wait: in any state, whoever holds the lock, the operations of rcu_read_lock and a dereference take a reader into its section with exactly the bit of the current parity and the current version, and rcu_read_unlock takes it out with both bits clear |
| `RcuReaders.SectionAmongOthers` | include/rcu.h:254-265 | the same with anything that others do in between: the bit is that of the parity at the load, the version the one current at the dereference |
| `RcuReaders.ReadersChangeNoOneElse` | include/rcu.h:254-265 | no operation of a reader changes the lock, the index, the published version, another reader or a phase of an updater |
| `RcuReaders.ReadersHeedNoUpdater` | include/rcu.h:254-265 | nor does what it does to the readers depend on the lock or on the updaters |
| `RcuReaders.UpdateGoesThrough` | include/rcu.h:267-324 | with the lock free and nobody in a section, an update goes through by its own steps: the new version is published, the old one freed, the parity changed |
| `RcuMachine.Machine.Perform` | include/rcu.h:254-324 | one operation of any reader or updater, in place, keeps the grace invariant; memory that is freed is held by no reader |
| `RcuMachine.Machine.Execute` | include/rcu.h:254-324 | any run of operations, in place, in which locks are taken at parity: no freed version is held, and every call that has returned waited for all sections open at its start |
| `RcuMachine.Machine.Synchronize` | include/rcu.h:267-310 | synchronize_rcu as it is written, with its two loops over the nodes and their busy waits, while other threads do anything in between: if it returns, every section that was open when it took the lock has ended; and it does return if the lock is free, no bit is set and the others are silent |
| `RcuMachine.Machine.Replace` | include/rcu.h:254-324 | publish, wait, free: the old version is freed, and no reader holds it |
| `ExceptCorrect.Simulate` | include/except.h:29-52 | code compiled from the macros, started in any machine state and followed by anything, arrives with the trace and outcome of the structured meaning, Except_stack as on entry and the frames of enclosing TRYs untouched |
| `ExceptCorrect.SimulateTry` | include/except.h:29-52 | the same for a whole TRY |
| `ExceptCorrect.SimulateClauses` | include/except.h:36-43 | the chain of EXCEPT and ELSE runs the first handler that matches, and none if none matches |
| `ExceptCorrect.SimulateEnd` | include/except.h:44-52 | FINALLY and END_TRY: the block of FINALLY runs, and an exception that no clause handled is raised again |
| `ExceptCorrect.ProgramMeaning` | include/except.h:29-52 | a program started on an empty Except_stack ends with the stack empty and the trace of its meaning, and aborts exactly if its meaning is an uncaught exception |
| `ExceptFinally.EndsMeans` | src/except.c:11-32 | the machine that runs the macros ends every program, in exactly one way: with the trace of its meaning, aborted exactly if that is an uncaught exception |
| `ExceptFinally.FinallySkippedIffHandlerRaises` | include/except.h:36-52 | runs of the machine: a TRY ends in the same way whatever the block of its FINALLY does, if and only if a handler of this TRY caught and itself raised: then the block is skipped |
| `ExceptFinally.SkippedFinally` | include/except.h:36-52 | a concrete program whose FINALLY would emit something and is skipped: the machine aborts with an empty trace |
| `ExceptLaws.Catches` | include/except.h:36-43 | runs of the machine: EXCEPT(e) catches e whatever follows it, and ELSE catches anything |
| `ExceptLaws.LetsPass` | include/except.h:36-43 | EXCEPT(x) makes no difference for any other exception |
| `ExceptLaws.FinallyRuns` | include/except.h:44-52 | the block of FINALLY runs after a normal end, after a handler, and before an exception goes on |
| `ExceptLaws.RaisesAgain` | include/except.h:21-52 | RERAISE raises the exception that is handled, and an exception raised in FINALLY takes the place of the pending one |
| `ExceptLaws.LeavesUncaught` | src/except.c:11-32 | what no clause catches leaves the TRY and aborts the program if it is not caught further out |
| `ExceptMachine.Machine.Perform` | include/except.h:29-52 | one instruction of a macro, in place |
| `ExceptMachine.Machine.Execute` | src/except.c:11-32 | running in place until the code ends is the run of the specification |
| `TimerExact.RunKeepsInv` | src/timer_wheel.c:88-192 | every add, delete and tick, with any callbacks, keeps: each timer is in one place and has fired at exactly the ticks it should have |
| `TimerExact.TimersAreExact` | src/timer_wheel.c:88-192 | in every run of adds, deletes and ticks, adds and deletes inside callbacks included, every timer fires at exactly the ticks that its recorded birth asks for, up to now or up to its recorded deletion, and at no others |
| `TimerCommands.RunTold` | src/timer_wheel.c:108-192 | the births and deletions that a run records are those of the operations done in it, from outside and by the callbacks of what it logs, each at the tick at which it was done, and there are no others |
| `TimerCommands.TimersFireAsAsked` | src/timer_wheel.c:88-192 | so every timer fires at exactly the ticks that whoever added it asked for, up to the first deletion that reached it, or up to now, and nothing else fires |
| `TimerCommands.OutsideAdd` | src/timer_wheel.c:108-122 | an addition from outside after any run: the timer is born at the number of ticks so far with the cycle and the repeat flag of the call, and fires accordingly in every continuation |
| `TimerCommands.OutsideDel` | src/timer_wheel.c:186-192 | a deletion from outside of a known timer counts from the number of ticks so far, in every continuation |
| `TimerExact.ExpectedMeans` | src/timer_wheel.c:94 | what the contract asks: once at t+c, or at every t+k*c if repeating (after a turn of the wheel instead of c for c = 0) |
| `TimerExact.ExpectedInOrder` | src/timer_wheel.c:124-173 | no tick is fired at twice |
| `TimerOrder.TickLogs` | src/timer_wheel.c:163-172 | whatever the callbacks do, a tick fires the timers that were due when it began, in that order, also those deleted meanwhile |
| `TimerOrder.EqualDeadlinesFireInOrder` | src/timer_wheel.c:98-102 | timers with the same deadline fire in insertion order, a repeat counting as an insertion |
| `TimerOrder.FirstFiring` | src/timer_wheel.c:94-95 | in the log of every run, a timer added at t with cycle c does not fire before t+c, and fires at t+c if and only if c > 0, unless it was deleted before; for c = 0 it first fires a whole turn later |
| `TimerOrder.DeletedStillFires` | src/timer_wheel.c:163-192 | a run in which the callback of a timer deletes another that is due at the same tick, and it fires nevertheless |
| `TimerSlots.SlotOfIsMod` | src/timer_wheel.c:95 | the slot of a deadline is the deadline modulo the number of slots |
| `TimerSlots.InsertKeepsSorted` | src/timer_wheel.c:98-102 | insertion before the first node that is not earlier keeps a slot sorted by deadline |
| `TimerSlots.FilterSlotOrder` | src/timer_wheel.c:98-102 | picking timers out of a slot commutes with the insertions that built it, so deletions and firings in between do not disturb its order |
| `TimerSlots.TakenAreFirable` | src/timer_wheel.c:146-160 | the nodes that the walk over the slot moves to the trigger list, reversed by the head pushes, are exactly the timers of the flat table that are due and not deleted, in the order of the table |
| `TimerSlots.TakenOrder` | src/timer_wheel.c:98-159 | newest-first insertion among equal deadlines and the reversal in the trigger list cancel: equal deadlines come out in insertion order |
| `TimerSlots.RestAgrees` | src/timer_wheel.c:146-160 | what the walk leaves behind its early break is exactly what the table still holds for that slot: the break loses nothing |
| `TimerWheel.PutInOrder` | src/timer_wheel.c:98-102 | the insertion loop finds the specified place |
| `TimerWheel.Wheel.constructor` | src/timer_wheel.c:69-86 | an empty wheel refines the empty table |
| `TimerWheel.Wheel.Link` | src/timer_wheel.c:88-106 | __timer_wheel_add puts a node in its slot; the flat table gets one more entry |
| `TimerWheel.Wheel.Add` | src/timer_wheel.c:108-122 | timer_wheel_add allocates a node that nobody has and refines the insertion into the table |
| `TimerWheel.Wheel.Delete` | src/timer_wheel.c:186-192 | timer_wheel_del marks a node that is allocated; the table records the deletion |
| `TimerWheel.Wheel.Collect` | src/timer_wheel.c:144-161 | the walk over the slot takes out exactly the due timers and frees deleted nodes it meets |
| `TimerWheel.Wheel.FireList` | src/timer_wheel.c:163-172 | the trigger list fires in order; each one-shot node is freed once, each repeating node goes back to a slot |
| `TimerWheel.Wheel.Tick` | src/timer_wheel.c:124-173 | a tick of the wheel is a tick of the table, and every node allocated is in exactly one slot position or freed |
| `TimerWheel.Wheel.Execute` | src/timer_wheel.c:88-192 | any sequence of commands refines the run of the flat table, and its log has for every timer exactly the firings that the command or callback that added it asked for |
| `TimerWheel.Wheel.Allocated` | src/timer_wheel.c:108-192 | between ticks no node in a slot is overdue, so a deleted node is freed no later than at its deadline; what is allocated are the timers of the table that are not deleted and the deleted ones still in slots, each in one place |
| `TimerWheel.Wheel.Destroy` | src/timer_wheel.c:302-329 | every node still allocated is freed, each once |
| `Pool.AlignUp` | include/mpool.h:20-21 | the aligned address is the least multiple of 16 at or after p |
| `Pool.AlignUpLeast` | include/mpool.h:20-21 | aligning never passes an aligned end, so the unsigned subtraction in alloc_small does not wrap |
| `Pool.TooLargeFitsNowhere` | src/mpool.c:314-329 | what exceeds the capacity of an empty block fits no block that is sound |
| `Pool.EmptyHasRoom` | src/mpool.c:36-38 | an empty block serves exactly the aligned requests of up to 16352 bytes |
| `Pool.RegionsDisjoint` | src/mpool.c:191-390 | any two regions in use are disjoint: of clients, of cleanup data, of the pool's own large and cleanup nodes, and large chunks |
| `Pool.Pool.constructor` | src/mpool.c:13-55 | a new pool with one block is sound |
| `Pool.Pool.AllocSmall` | src/mpool.c:306-330 | the piece comes from the first block from current on that fits, and a new block is taken only if none does; the pool stays sound exactly if the size fits an empty block; aligned pieces are 16-aligned |
| `Pool.Pool.AllocBlock` | src/mpool.c:332-366 | the new block goes to the end of the chain and becomes current |
| `Pool.Pool.Alloc` | src/mpool.c:130-158 | requests up to 4095 bytes come from a block, 16-aligned, larger ones from a chunk of their own; the pool stays sound |
| `Pool.Pool.Nalloc` | src/mpool.c:160-188 | the same without alignment |
| `Pool.Pool.AllocLarge` | src/mpool.c:368-390 | the chunk is recorded in a node that itself lives in a block |
| `Pool.Pool.PFree` | src/mpool.c:190-220 | exactly the newest node with this address is unlinked, -1 if there is none, and the pool stays sound |
| `Pool.Pool.CleanupAdd` | src/mpool.c:222-271 | data and node are placed and the node becomes the newest; the pool stays sound if and only if the data fits an empty block, because the size is not checked |
| `Pool.Pool.RunCleanups` | src/mpool.c:293-304 | exactly the cleanups of the list that have a function are called, each once and in the order of the list, which has the newest in front, and the list is empty afterwards |
| `Pool.Pool.Reset` | src/mpool.c:96-128 | calls the cleanups likewise, gives every chunk back, makes every block the empty block of a new pool, with room for 16352 bytes, and goes back to the first; the pool is sound with nothing in use |
| `PoolRuns.Execute` | src/mpool.c:96-304 | any sequence of requests, frees, cleanups and resets: what users were given and neither freed nor lost in a reset never overlaps, neither among itself nor with the nodes of the pool; sizes and alignment are as asked for; every cleanup and reset calls the functions registered since the last one, each once, the latest first |
| `Frames.ParseOfEncode` | src/com_msg.c:106-110 | a frame that was sent is parsed back, whatever bytes follow it |
| `Frames.EncodeOfParse` | src/com_msg.c:140-178 | what is parsed as a frame is the encoding of that frame followed by the bytes left |
| `Frames.ParseConserves` | src/com_msg.c:140-189 | parsed frames and bytes left over are always exactly the bytes received |
| `Frames.ParseSplits` | src/com_msg.c:260-276 | parsing in two goes is parsing in one |
| `Frames.ChunkingIrrelevant` | src/com_msg.c:252-278 | parsing chunk by chunk gives the same frames and the same rest, however the stream is cut |
| `Frames.SentIsDelivered` | src/com_msg.c:99-284 | however the bytes of sent frames are cut, exactly these frames are parsed, in order, and nothing is left |
| `Frames.PrefixParses` | src/com_msg.c:140-189 | what has arrived of sent frames parses to the first of them, and the rest is less than the next frame |
| `Frames.RoomIffFramesFit` | include/buf.h:52-55 | the buffer always has room to read on if and only if every frame, with its eight bytes of header, fits it |
| `Frames.ExampleFrame` | src/com_msg.c:106-110 | a frame byte by byte: id, length and data, words with the lowest byte first |
| `Receiver.Channel.Receive` | src/com_msg.c:191-219 | bytes read go behind the data, no more than there is room for |
| `Receiver.Channel.TakeFrame` | src/com_msg.c:140-189 | a complete frame is copied out by cursor arithmetic and is the one that parsing finds; an incomplete one leaves the cursors alone; frames handled and bytes buffered stay exactly the bytes received |
| `Receiver.Channel.Slide` | include/buf.h:111-117 | the bytes still to parse move to the front unchanged |
| `Receiver.Channel.DealAll` | src/com_msg.c:260-274 | every complete frame in the buffer is handled in order, or handling stops at the first that is refused |
| `Receiver.Channel.ReceiveAndDeal` | src/com_msg.c:248-284 | returns 0 with every frame of the bytes read so far handled in order and the rest at the front, having read on for as long as anything was left to parse, or -1 at the first frame that has no handler or whose handler fails |
| `Receiver.ReadsOn` | src/com_msg.c:252-278 | a call that refuses nothing ends only when nothing is left to parse, or after as many reads as found something ready, or with the buffer full |
| `Receiver.Channel.ReceiveSent` | src/com_msg.c:221-284 | one call on the bytes of sent frames that all have a handler that succeeds: it returns 0 and what has been handled are the first of the frames sent |
| `Receiver.Channel.Deliver` | src/com_msg.c:99-284 | end to end: frames are sent, their bytes arrive cut in any way, the receiver is called again and again: what is handled are always the first frames sent, in order, and once there have been as many calls as bytes, each with a byte ready, it is all of them |
| `Receiver.AlwaysRoom` | include/buf.h:52-55 | between rounds there is room to read on, if every frame sent fits the 1024 bytes |
| `ThreadPool.StepKeepsInv` | src/thread_pool.c:35-117 | every operation of any caller or worker keeps: one lock holder, queue length = semaphore + workers past sem_wait that have not dequeued (+ 1 before a sem_post), queue order, and each job in one place |
| `ThreadPool.OwedFindsEntry` | src/thread_pool.c:85-107 | a worker past sem_wait finds the queue non-empty |
| `ThreadPoolRuns.NeverFindsEmpty` | src/thread_pool.c:97-104 | in every run the assertion on the empty queue is unreachable |
| `ThreadPoolRuns.JobsRunOnce` | src/thread_pool.c:55-113 | jobs are dequeued in the order in which they were appended, none runs twice, and every job is queued, with the one worker that took it, or done |
| `ThreadPoolRuns.Bounds` | src/thread_pool.c:43-56 | the semaphore never exceeds max_requests and the queue never exceeds it by more than the number of workers |
| `ThreadPoolRuns.RefusedWhenFull` | src/thread_pool.c:43-50 | a job is refused exactly if the semaphore is at its limit, and then at least max_requests jobs are queued |
| `ThreadPoolRuns.SomeoneCanMove` | src/thread_pool.c:35-117 | no deadlock: while there is a job and a worker, some thread inside the pool can go on |
| `ThreadPoolRuns.AllJobsRun` | src/thread_pool.c:83-114 | once callers are quiet, each worker step that does not wait brings the end one step closer, and at the end every job appended has run |
| `ThreadPoolRuns.LoadMoves` | src/thread_pool.c:83-114 | and until then some worker has such a step |
| `ThreadPoolCalls.JobsAreThoseHandedIn` | src/thread_pool.c:35-61 | the jobs queued in a run are exactly those that the calls not refused were handed, process and argument, each once, in the order of the additions |
| `ThreadPoolCalls.CallGoesThrough` | src/thread_pool.c:35-61 | a call that finds the lock free queues its job behind the others and posts it, or, if the pool is full, changes nothing; either way the lock is free again |
| `ThreadPoolCalls.WorkGoesThrough` | src/thread_pool.c:83-114 | a worker that finds a unit and the lock free takes the first job, runs it, and is back at the start |
| `ThreadPoolCalls.WaitsOnlyForLockOrJob` | src/thread_pool.c:35-114 | a thread inside the pool waits for the lock or for a job, and for nothing else |
| `ThreadPoolMachine.Machine.Perform` | src/thread_pool.c:35-117 | one operation of any thread, in place: the invariant is kept and the assertion is not reached |
| `ThreadPoolMachine.Machine.Execute` | src/thread_pool.c:35-117 | any schedule, in place, reaches the state of the specification's run |
| `Trie.InsertIsPutIfAbsent` | src/trie.c:131-171 | insertion binds the name if it was not bound, returns what was bound, and changes no other binding |
| `Trie.InsertKeepsSound` | src/trie.c:142-156 | siblings keep different keys |
| `Trie.RemoveReaches` | src/trie.c:84-129 | removal returns the value bound to the name, and gets to the end of the name exactly if the name's parent is in the tree |
| `Trie.RemoveClears` | src/trie.c:115-118 | a removal that gets to the end unbinds the name and every proper suffix of it, and nothing else |
| `Trie.RemoveIsExact` | src/trie.c:84-129 | removal unbinds just the name if and only if no proper suffix of it is bound or its parent is not in the tree |
| `Trie.RemoveUnbindsParent` | src/trie.c:117-118 | a concrete case: removing a name that was never bound unbinds its parent |
| `Trie.RemoveKeepsLean` | src/trie.c:120-124 | removal leaves no node that is neither bound nor above a node that is |
| `Trie.InsertKeepsLean` | src/trie.c:131-171 | insertion of a value leaves no such node either |
| `TrieSearch.GetIsLevel` | src/trie.c:58-81 | the scan of the children, in closed form by the positions of the match and of the star |
| `TrieSearch.ExactWins` | src/trie.c:47-82 | an exact binding wins, whatever wildcards there are and in whatever order |
| `TrieSearch.FoundIsOffered` | src/trie.c:71-81 | anything else that is found is bound to a wildcard of a proper suffix |
| `TrieSearch.GetFinds` | src/trie.c:47-82 | something is found if and only if the name is bound or a wildcard above it is, except a wildcard that stands behind an unbound node of exactly this name |
| `TrieSearch.HiddenWildcard` | src/trie.c:58-81 | a concrete tree, made by two insertions, in which a wildcard is bound and the search for a name that it covers finds nothing, because an unbound node of that name stands before it |
| `TrieWildcards.WildcardOrder` | src/trie.c:47-82 | which wildcard answers for an unbound name: of those that count the one of the longest suffix, where one listed behind the node of the name counts only if no bound one was passed before; without one nothing is found |
| `TrieOrder.InsertionGrows` | src/trie.c:142-156 | the order of siblings, which decides that: a new child goes behind the others, at one node on the way, and no other node changes |
| `TrieOrder.RemovalShrinks` | src/trie.c:120-124 | removal takes at most one child from a node and keeps the others in order |
| `TrieMap.NodesAreLeads` | src/trie.c:84-129 | in a tree without useless nodes a name is a node if and only if it is a suffix of a bound name |
| `TrieMap.ChangeIsApply` | src/trie.c:84-171 | so insertion and removal are operations on the map from names to values alone: put-if-absent, and a removal that takes the bound suffixes along exactly if some bound name has the parent for a suffix |
| `Domains.JoinOfSplit` | include/trie.h:58-79 | joining the labels with dots gives the name back, and no label has a dot |
| `Domains.SplitOfJoin` | include/trie.h:58-79 | splitting joined dotless labels gives them back |
| `Domains.PathOfInjective` | include/trie.h:58-79 | different names have different paths in the tree |
| `Domains.ExampleNames` | include/trie.h:58-79 | a name letter by letter: the dot separates, the path starts at the top-level label, the wildcards are `*.a.b` and `*` |
| `Domains.InsertDomain` | include/trie.h:83-93 | insertion is put-if-absent on the map keyed by names |
| `Domains.GetDomain` | include/trie.h:114-125 | a bound name yields its value; otherwise what is found is bound at `*.s` for a proper suffix s of the name |
| `TrieNodes.SplitDomain` | include/trie.h:58-79 | the loop over the dots pushes exactly the labels of the name |
| `TrieNodes.Node.Insert` | src/trie.c:135-171 | insertion in place: nodes off the path are untouched, new nodes are fresh, and the tree they show is the specified one |
| `TrieNodes.Node.Remove` | src/trie.c:84-129 | removal in place, with the labels that are left in the shared array |
| `TrieNodes.Node.Get` | src/trie.c:47-82 | the search loop over node objects and the shared array of labels yields the specified result |
| `TrieNodes.InsertDomain` | include/trie.h:83-93 | for every name: its binding after an insertion; and no useless node appears |
| `TrieNodes.GetDomain` | include/trie.h:114-125 | when something is found, and what |
| `TrieNodes.RemoveDomain` | include/trie.h:97-110 | for every name: its binding after a removal, and when only the name itself is unbound; no useless node is left |
| `TrieNodes.Execute` | include/trie.h:83-110 | any sequence of insertions and removals of domains, in place: the values returned and the bindings are those of the map, no useless node is kept, and when nothing is bound no node is left |
| `DnsNames.ParseOfEncode` | src/dns.c:28-72 | a name on the wire is accepted exactly if its text fits the buffer; the text is that of its labels and the cursor moves by the wire length, compressed or not |
| `DnsNames.EncodeOfParse` | src/dns.c:28-72 | whatever is accepted is a well-formed name that fits |
| `DnsNames.NameFits` | src/dns.c:60-61 | the text fits if and only if the labels take at most 256 bytes on the wire |
| `DnsNames.LegalIsAccepted` | src/dns.c:28-80 | every name within the limits of section 2.3.4 of RFC 1035 is accepted |
| `DnsNames.LoweredMeans` | src/byte_range.c:46-52 | the text of a name has no capital letter; each byte is that of the joined labels, a capital letter replaced by the small one |
| `DnsNames.CaseIgnored` | src/dns.c:71-72 | names whose labels differ only in the case of letters have the same text |
| `DnsCompression.TextIsWhole` | src/dns.c:45-53 | the text of an accepted name is that of the whole name, its pointers followed as in section 4.1.4 of RFC 1035, if and only if it has no pointer or one that leads to the root |
| `DnsCompression.CompressedLosesLabels` | src/dns.c:45-53 | a compressed name in a message of seven bytes whose text lacks the label behind the pointer |
| `Dns.ParseRecordOfEncode` | src/dns.c:112-145 | a record is parsed back with its type, class, ttl and data, and the cursor moves to its end |
| `Dns.QuestionOfEncode` | src/dns.c:150-172 | the k-th question of an encoded message is found, and none if there are fewer |
| `Dns.AnswerOfEncode` | src/dns.c:174-206 | the k-th answer of an encoded message is found, compressed names before it included, and none if there are fewer |
| `Dns.AnswerIsEncoded` | src/dns.c:174-206 | conversely an answer that is found is in the message, as record k behind the announced questions |
| `Sections.NthOfEncode` | src/dns.c:198-203 | the k-th of encoded entries is found, for any entries |
| `Sections.SkipOfEncode` | src/dns.c:194-196 | skipping encoded entries ends right behind them |
| `DnsParser.Cursor.ParseName` | src/dns.c:28-80 | the loop writes the dotted text of the name that stands there, without capital letters, and its final 0 within the 256 bytes and leaves the cursor behind the name, or fails exactly if parsing fails |
| `DnsParser.Cursor.ParseQuestion` | src/dns.c:82-110 | type and class are read in network order and the cursor is left behind the question |
| `DnsParser.Cursor.ParseRecord` | src/dns.c:112-145 | all fields of a record, its data within the message |
| `DnsParser.ToLower` | src/byte_range.c:46-52 | in place, every capital letter becomes the small one, every other byte and the final 0 are kept |
| `DnsResponse.FetchQuestion` | src/dns.c:150-172 | dns_get_question returns 0 with the specified question, or -1 if there is none |
| `DnsResponse.FetchAnswer` | src/dns.c:174-206 | dns_get_answer returns 0 with the specified record, or -1 if there is none |
| `DnsAddress.AddressRoundTrip` | src/dns.c:326-329 | the dotted text of an address fits its buffer of 16 bytes, and the address can be read back from it |
| `DnsResponse.ParseResponse` | src/dns.c:295-344 | the domain and the addresses that the message specifies, or NULL; the texts, in order, read back as exactly the four-byte data of its answers |
| `DnsResponse.ResponseOfEncode` | src/dns.c:274-344 | an encoded response without error yields the name of its first question and the dotted text of every IPv4 address of its answers, in order |
| `DnsExample.ExampleResponse` | src/dns.c:295-344 | a response of 39 bytes as it comes from the network, with a compressed name and capital letters, yields www.a and 192.168.0.10 |

## Left out

* Weak memory: fences and memory orders; all memory is sequentially consistent.
* MCS lock: which node a thread passes is not modelled; thread t always uses its own node t.
* RCU: registration of threads and rcu_clean; nested read sections; the next pointer that shares a word
  with the nesting bits; the list of nodes is a sequence that does not change.
* List sort: insize is unbounded; in the code it stays below the length of the list, so a list of up to
  2^31 nodes does not make the unsigned doubling wrap. cmp is a function of its two nodes that reads no
  links.
* Exceptions: the RETURN macro, file and line, and the message of an uncaught exception; frames are memory
  indexed by the depth of their TRY, as long as the depth is in use.
* Timer wheel: additions from other threads during a tick, the slot locks, and the signal, timerfd and
  epoll plumbing. A slot is a sequence of node contents and not a linked list (`ListSort.Link` and
  `ListSort.Unlink` treat the links). Deleting a node that has been freed, which the source forbids, has
  no effect. tigger_ts and cur_ts are unbounded.
* Pool: failing malloc and posix_memalign, mpool_destroy, mpool_calloc and mpool_strdup, the locks. The
  block chain and the node lists are sequences of addresses; the memory of a chunk handed out by the
  system is assumed to be apart from what is in use.
* Framing: sockets and their errors, truncated datagrams, failing malloc, more than one reader. A read
  of 0 bytes when the buffer is full would be repeated for ever by the code; a run here ends with the reads
  it is given. `RoomIffFramesFit` says when this does not happen. The int width of a length in cmsg_send.
* Thread pool: threadpool_delete, so stop stays 0; errors of sem_wait other than EINTR; init_worker.
* Trie: keys are strings without NUL; trie_map, printing and destruction; memory of keys. After a
  removal the ghost footprint still names the freed nodes, though none is in the tree.
* DNS: the header counts are read before the length is checked (src/dns.c:155-157), which makes no
  difference to the result; inet_ntop itself (its text is a function); printing; the other sections.
* Not modelled at all: arrays, bitmaps, rings, hash tables, TLV, number formatting, the second timer
  implementation in src/timer_list.c, src/async_work.c, daemons, events, logging, tracing, wrapping and crypto.
