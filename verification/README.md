# rkt-io: a model of its concurrent core, in Dafny

rkt-io runs many user-level threads (lthreads) inside an enclave. This project models the parts of
it on which everything else stands and proves what they promise: how lthreads block and are resumed,
how system calls travel to host threads and back, how the network device avoids stalls, and the
data structures underneath.

| file | models |
|---|---|
| `TicketLock.dfy` | the ticket lock, any number of threads, both 32-bit counters wrapping |
| `MpmcQueue.dfy` | the lock-free bounded queue between enclave and host |
| `HostCall.dfy` | the host-call protocol: slots, status word, two queues, host threads; queue sizes |
| `Slots.dfy` | the allocator of system call slots |
| `Arena.dfy` | the arena through which buffers reach the host, readv and writev |
| `FutexList.dfy` | the futex list down to the SLIST macros, and the futex system call |
| `Lthreads.dfy` | lthreads, schedulers, futex lock, futex list and host calls together |
| `Commands.dfy` | the futex commands, ticks and host calls of these lthreads from their first step to their last |
| `VirtioNet.dfy` | poll flags and control pipe of the network device |
| `Vring.dfy` | the virtqueue consumer with wrapping 16-bit indices |
| `TreeShape.dfy`, `TreeBalance.dfy`, `RedBlackTree.dfy` | red-black trees: shape in memory, balance, operations |
| `SplayTree.dfy` | top-down splay trees |
| `Words.dfy`, `Bitmap.dfy` | 64-bit words and the bitmaps built on them |
| `Basics.dfy` | options, minimum and maximum, sequences without repetition, shared constants |

`dafny verify dfyconfig.toml` checks the whole project.

## How it is modelled

Protocols between threads are transition systems: a `State`, a `Step` per atomic access, `Enabled`
and `Apply`, and runs as sequences of states of any length from the initial one, over any set of
threads. Results are stated about every state of every run. History variables, named in each
file, record what happened and influence no step. Memory is sequentially consistent.

Sequential code keeps its form: classes whose methods update fields and arrays in loops, each
proved against the sequence, set or bits that the structure stands for. Nodes of linked structures are
kept in a map from addresses to cells, so that all links, including stale ones, are explicit. Of
the tree nodes the address carries the key, which tree.h never writes.

Where code and comments disagree the model follows the code:

- `futex_tick` assigns to the clock field where a comparison was meant. `CLOCK_REALTIME` is 0, so expiry
  is always judged by the monotonic clock, and the clock field is overwritten (`FutexList.AskedClock`,
  `FutexList.RealTimeMissed`).
- A deadline of 0 stands for none, so that a waiter with the absolute time-out 0 never expires
  (`FutexList.ZeroTimeout`).
- A `FUTEX_CMP_REQUEUE` whose comparison fails moves nothing and returns an uninitialised value.
- `FUTEX_WAIT` with the real-time flag is refused, because the test for it masks with 0.
- The comment on `enqueue` in `lkl/virtio.h` lets 0 say that a request has been queued.
  `async_virtio_process_queue` advances by the answer, so that after 0 it makes the same request again
  (`Vring.VirtQueue.OfferedAgain`); in the model an answer counts the entries the device has taken.
- A descriptor chain one longer than the buffer array loses its last buffer without a panic
  (`Vring.ChainExact`, `Vring.LosesLast`).
- `readv` copies whole buffers back whatever the host call returned, so that a short or failed call
  overwrites what it did not deliver with old arena content (`Arena.KeepsRest`).
- The control argument at the top of `virtio_net.c` is right only if a routine counts as waiting from the
  moment it sets its poll variable, not from its write to the pipe (`VirtioNet.EventBeforeSignal`).
- `__reg_op` on a region that is neither within one word nor at a word boundary touches other bits than its
  own (`Bitmap.TouchedExactly`).
- `SPLAY_REMOVE` returns the node it was given, not the one it took out.
- With a single slot the queues have one cell each, and `newmpmcq` fails its assertion (`HostCall.QueueCells`).

## Model

| member | source | states |
|---|---|---|
| TicketLock.MutualExclusion | src/include/ticketlock.h:28-58 | for every interleaving of lock, split unlock and trylock at most one thread holds the lock, if and only if there are at most 2^32 threads |
| TicketLock.Exclusion | src/include/ticketlock.h:28-58 | in every run over any set of threads in which at most 2^32 are ever pending at once, at most one holds the lock |
| TicketLock.FirstComeFirstServed | src/include/ticketlock.h:28-42 | in every such run the lock is entered in the order of the fetch-and-adds, and whoever is first in line holds it or finds its ticket up |
| TicketLock.TryCasInv | src/include/ticketlock.h:44-58 | a trylock that succeeds does so on a lock nobody holds or waits for |
| TicketLock.TrySucceeds | src/include/ticketlock.h:44-58 | in every run with at most 2^32 pending a trylock succeeds if and only if, at its compare-and-swap, nobody holds the lock or waits for it and the number of tickets drawn is, modulo 2^32, the one it read |
| TicketLock.TryAtOnce | src/include/ticketlock.h:44-58 | a trylock that is not interrupted succeeds if and only if nobody holds the lock or waits for it |
| TicketLock.TooManyThreads | src/include/ticketlock.h:28-34 | with more than 2^32 threads there is a run in which two hold the lock |
| TicketLock.StepInv | src/include/ticketlock.h:28-58 | every step keeps the invariant that ties both wrapped counters to arrivals and releases |
| TicketLock.UnlockStoreInv | src/include/ticketlock.h:36-42 | the store half of the non-atomic unlock passes the lock on to the next in line |
| MpmcQueue.StepRefines | src/shared/mpmc_queue.c:63-116 | every atomic access either leaves the abstract queue alone, appends one item at its end or removes its head: the lock-free code refines a first-in first-out queue |
| MpmcQueue.Fifo | src/shared/mpmc_queue.c:63-116 | in every run what dequeues have read is the item of the enqueue with the same rank, each rank at most once, and the queue never exceeds the buffer |
| MpmcQueue.DequeueCall | src/shared/mpmc_queue.c:90-116 | in every run a dequeue call returns an item if and only if its thread moved the head of the queue during the call, which it does at most once, and the item is then the one enqueued with that rank; otherwise it reports an empty queue |
| MpmcQueue.EnqueueCall | src/shared/mpmc_queue.c:63-88 | in every run an enqueue call returns success if and only if its thread appended its data to the queue during the call, exactly once, and nothing else |
| MpmcQueue.RemovedOnce | src/shared/mpmc_queue.c:90-116 | no position is taken out of the queue twice, by whichever threads |
| MpmcQueue.EnqueueAlone | src/shared/mpmc_queue.c:63-88 | an enqueue without interruption ends after at most five accesses and succeeds if and only if the next cell is free |
| MpmcQueue.DequeueAlone | src/shared/mpmc_queue.c:90-116 | a dequeue without interruption ends after at most five accesses and returns the head of the queue if and only if it has been published |
| MpmcQueue.Reloads | src/shared/mpmc_queue.c:80-83 | a call whose position has been overtaken goes on with the current one |
| MpmcQueue.WordRuns | src/shared/mpmc_queue.c:63-116 | every run of the machine that masks, subtracts and compares 64-bit words, of any length and with positions wrapping, is a run of the unbounded machine, as long as no thread sleeps through 2^61 operations in the middle of one of its own |
| MpmcQueue.WordsAgree | src/shared/mpmc_queue.c:69-83 | masked slots, signed differences of words and word-wise compare-and-swap decide as unbounded positions would |
| MpmcQueue.ReadInv | src/shared/mpmc_queue.c:113-114 | a dequeue reads its cell only while it owns the position, and keeps the invariant |
| MpmcQueue.EnqueueFailure | src/shared/mpmc_queue.c:78-79 | an enqueue reports a full queue if and only if its cell still serves a position at least one buffer back, whose dequeue has not returned |
| MpmcQueue.DequeueFailure | src/shared/mpmc_queue.c:106-107 | a dequeue reports an empty queue if and only if the position it loaded is still the next one and is unclaimed or unpublished |
| MpmcQueue.FullOrBusy | src/shared/mpmc_queue.c:78-79 | in every run an enqueue that reports a full queue either meets one with every cell taken, or a cell whose dequeue is under way in a thread that can take its next step |
| MpmcQueue.RunInv | src/shared/mpmc_queue.c:49-116 | the invariant on cells, sequence numbers and owners holds in every state of every run |
| HostCall.ExactlyOnce | src/host/sgx_hostcall_interface.c:131-180 | on the queued, the busy-wait and the exit path alike, a caller that continues has had its request executed at exactly one step of the run, and finds the value that the system call returned in that step |
| HostCall.HandsOff | src/main/sgxlkl_run.c:397-420 | while a caller may touch its slot no host thread holds it and neither queue contains it; a slot is never in both queues |
| HostCall.NeverFull | src/main/sgxlkl_run.c:799-825 | with at least as many cells as slots, no submission and no return ever meets a full queue |
| HostCall.Progress | src/main/sgxlkl_run.c:397-420 | while a call is outstanding some step is enabled that completes this very call or brings it strictly nearer to completion, in a well-founded rank |
| HostCall.StepRank | src/main/sgxlkl_run.c:397-420 | no step of any caller, scheduler or host thread takes an outstanding call farther from its completion |
| HostCall.NothingToCheck | src/host/sgx_hostcall_interface.c:122-129 | a slot taken off the return queue always belongs to a waiting thread, a slot taken by the host always holds a request, and a resumed caller always finds a return value |
| HostCall.ResultsStable | src/main/sgxlkl_run.c:353-394 | a result is never overwritten by another execution |
| HostCall.StepInv | src/host/sgx_hostcall_interface.c:131-180 | every step of callers, schedulers and host threads keeps the slot invariant |
| HostCall.NextPow2 | src/shared/sgxlkl_util.c:99-104 | the least power of two that is at least the argument |
| HostCall.QueueCells | src/main/sgxlkl_run.c:799-825 | the number of cells is a power of two, at least the number of slots and less than twice it, and is accepted if and only if there are at least two slots |
| Slots.Allocator.Alloc | src/host/sgx_hostcall_interface.c:182-199 | below capacity the lowest free index, below maxsyscalls, is found and taken; it crashes exactly if every slot is in use; the counter stays the number of slots in use |
| Slots.Allocator.Free | src/host/sgx_hostcall_interface.c:201-210 | exactly the given slot becomes free, or the number is too large and ignored, or it is maxsyscalls and the writes go behind the arrays; the counter stays the number of slots in use if and only if the slot was in use or the number ignored |
| Slots.Allocator.constructor | src/host/sgx_hostcall_interface.c:112-120 | all slots start free |
| Arena.Arena.Stage | src/host/sgx_hostcalls.c:268-284 | the size reserved is exactly what headers and buffers use, the headers lie in the arena and their buffers follow in order without gaps, and the slot is written only after the arena has grown |
| Arena.Arena.Writev | src/host/sgx_hostcalls.c:314-336 | for every array of buffers, the empty one and empty buffers included, the bytes the host gathers by following the headers in the arena are the concatenation of the caller's, and the arena ends empty |
| Arena.Arena.Readv | src/host/sgx_hostcalls.c:268-290 | what the host delivers arrives in the caller's buffers in order, each keeping its length; the rest of them is what the arena held there; the arena ends empty |
| Arena.KeepsRest | src/host/sgx_hostcalls.c:286 | the caller's bytes beyond the delivered ones survive, whatever they were, if and only if there are none |
| Arena.Arena.Ensure | src/host/sgx_hostcall_interface.c:49-62 | the arena is large enough afterwards, keeps its content, and the nested mremap meets an unwritten slot |
| Arena.Arena.Alloc | src/host/sgx_hostcall_interface.c:64-71 | successive pieces are adjacent, with room or without; a piece of size 0 is NULL |
| Arena.Disjoint | src/host/sgx_hostcall_interface.c:85-99 | every non-empty buffer lies inside the arena, behind the headers and in front of every later buffer |
| FutexList.Futexes.Wake | src/sched/futex.c:188-216 | exactly the first min(num, m) of the m matching sleepers become runnable, in list order; the others keep place and content; the list stays acyclic, owned and counted |
| FutexList.Futexes.Requeue | src/sched/futex.c:218-242 | the first min(num, m) sleepers with the key are woken, the next ones get the second key, and order and all else stay; the returned total counts both |
| FutexList.Futexes.Tick | src/sched/futex.c:45-82 | exactly the sleepers whose deadline has passed by the monotonic clock are woken, with the reason set |
| FutexList.Futexes.Wait | src/sched/futex.c:84-179 | a waiter joins the head of the list exactly if the word has the expected value, with its deadline and clock |
| FutexList.Futexes.Syscall | src/sched/futex.c:244-322 | for every command word, by its number, the effect and result of the command and of each error case up to the return or the yield of a sleeper: whom it wakes or moves, on the key of which address, with which bits, and the node with which it sleeps; the lock is released once on each path that took it, and is still held exactly when the caller goes to sleep |
| FutexList.DecodeWord | src/sched/futex.c:257-277 | masking and testing of the flags accept exactly the words in the table of commands |
| FutexList.AndCommon | src/sched/futex.c:201 | the conjunction of two bit sets is not zero if and only if some bit is set in both |
| FutexList.Futexes.AfterSleep | src/sched/futex.c:147-148 | a resumed sleeper returns -ETIMEDOUT exactly if it was told that it expired, else 0, and leaves the lock alone, whoever holds it |
| FutexList.Futexes.Ticks | src/sched/futex.c:45-82 | after any sequence of ticks a sleeper is still there exactly if no monotonic reading has reached its deadline, however the clock field was rewritten |
| FutexList.Futexes.Remove | src/include/queue.h:191-211 | removing a node anywhere in the list leaves a chain of exactly the others, in order |
| FutexList.Futexes.InsertHead | src/include/queue.h:184-187 | a new node goes in front of an unchanged chain |
| FutexList.Futexes.Expiry | src/sched/futex.c:69-71 | the assignments inside the test make the verdict depend on the monotonic clock alone |
| FutexList.Conserved | src/sched/futex.c:188-242 | sleepers taken off and sleepers left add up to those there were, and nobody is both |
| FutexList.FullWake | src/sched/futex.c:188-216 | a wake asked for at least as many as match leaves nobody who matches |
| FutexList.OrderKept | src/sched/futex.c:188-242 | those who stay keep their relative order, matching or not |
| FutexList.RequeueTotal | src/sched/futex.c:235-238 | the documented total is reached if and only if num + limit fits in 32 bits or nobody is left to move |
| FutexList.AskedClock | src/sched/futex.c:69-71 | for every wait command, over all sequences of clock readings, the waiter leaves by time exactly when its time-out asked for it, if and only if there is no time-out, or the clock is not the real-time one and the time-out does not end at time 0 |
| FutexList.RealTimeMissed | src/sched/futex.c:69-71 | a FUTEX_WAIT_BITSET call with the real-time flag, and a tick after its deadline on that clock at which it is still asleep |
| FutexList.ZeroTimeout | src/sched/futex.c:69-71 | a FUTEX_WAIT_BITSET call with the absolute time-out 0, still asleep after any sequence of ticks |
| Lthreads.OnePlace | src/sched/lthread.c:201-248 | in every reachable state a started lthread is in exactly one place: on one CPU, in the scheduler queue, asleep on the futex list, in a host call or in the return queue, and nowhere twice |
| Lthreads.QueuedOffCpu | src/host/sgx_hostcall_interface.c:135-145 | no lthread is in a queue or with the host while still on a CPU |
| Lthreads.AsleepOnList | src/sched/futex.c:123-148 | whoever holds the futex lock to wake finds only lthreads that have left their CPU |
| Lthreads.LockDiscipline | src/sched/futex.c:274-322 | the futex lock is released only by its holder, and lthreads in application code, resumed from a sleep or off the CPU never hold it |
| Lthreads.WaitResult | src/sched/futex.c:286-292 | in every run the result of a wait command goes to the branch that unlocks if and only if the lock is still its own, which is when it never slept |
| Lthreads.TimedOut | src/sched/futex.c:147-148 | in every run a wait command that slept returns -ETIMEDOUT if and only if the last step that took it off the list was a tick's, and otherwise 0 |
| Lthreads.HolderMoves | src/sched/futex.c:123-148 | the holder of the futex lock can always take its next step |
| Lthreads.JoinsOnlyIfEqual | src/sched/futex.c:151-186 | the only step that puts an lthread on the list is its own, with the lock held and the word equal to the expected value |
| Lthreads.WakeCount | src/sched/futex.c:188-216 | in every interleaving a wake ends having woken min(num, m), and with num at least m no entry with that key and a common bit remains |
| Commands.WakeCommand | src/sched/futex.c:188-216 | in every run a FUTEX_WAKE, from the step that takes the lock to the one that releases it, makes the first num sleepers with the key of its address and a common bit runnable, in list order, and nobody else, and leaves the rest of the list as it was |
| Commands.RequeueCommand | src/sched/futex.c:218-242 | in every run a FUTEX_REQUEUE makes the first num sleepers with the key runnable, in order, gives the next ones up to num + limit in 32 bits the second key, and leaves the rest |
| Commands.CmpRequeueCommand | src/sched/futex.c:302-311 | in every run a FUTEX_CMP_REQUEUE compares the word once with the lock held, and then does what FUTEX_REQUEUE does or wakes and moves nobody |
| Commands.TickCommand | src/sched/futex.c:45-82 | in every run a tick takes exactly the sleepers off the list whose deadline is not 0 and not after the clock reading, in list order |
| Commands.WaitCommand | src/sched/futex.c:151-186 | in every run a wait command reads the word once with the lock held, and when the lock is released it is asleep at the head of the list with its key, bits and deadline, or back with the list unchanged, depending on what it read |
| Commands.HolderAlone | src/sched/futex.c:274-318 | while somebody holds the futex lock no step but the holder's own changes the list, the lock or what the holder does |
| Commands.NoLostWakeup | src/sched/futex.c:151-216 | after a FUTEX_WAKE command for at least as many as match, with any bits, nobody who came to wait for v with one of these bits sleeps there for as long as the word is not v |
| Commands.StoreAndWake | src/sched/futex.c:151-216 | a thread that stores another value than v and then wakes all who match: nobody with one of the bits sleeps there waiting for v until somebody stores v again |
| Commands.NobodyLeft | src/sched/futex.c:151-216 | with the bits of a plain wake it is nobody at all |
| Commands.HostCallServed | src/host/sgx_hostcall_interface.c:135-145 | in every run an lthread that makes a host call is back in application code only after the host has had the call and completed it |
| Commands.YieldQueues | src/sched/lthread.c:341-343 | in every run an lthread that gives up the CPU runs again only from the scheduler queue |
| Commands.FirstInFirstOut | src/sched/lthread.c:201-248 | in every run the scheduler queue and the return queue are first in first out: contents and additions are removals and contents, in order |
| Lthreads.SchedulerQueueFits | src/include/lthread.h:221-224 | the scheduler queue never holds more than the number of lthreads, so enqueueing never waits on a queue with that much room |
| Lthreads.StepInv | src/sched/lthread.c:445-502 | every step of lthreads, callbacks, schedulers, ticks and host keeps the invariant |
| VirtioNet.FlagOrEvent | src/lkl/virtio_net.c:34-46 | while a side waits its poll variable is 1 or poll is about to return its event |
| VirtioNet.NeverStalls | src/lkl/virtio_net.c:133-195 | a poll that does not watch for a side that waits and has signalled has a byte in the pipe; one that does watch returns the event once the device is ready |
| VirtioNet.NextRoundWatches | src/lkl/virtio_net.c:133-195 | a round of poll that starts while a side waits watches for its event, whatever the other threads do |
| VirtioNet.RoundDelivers | src/lkl/virtio_net.c:133-195 | such a round is committed to the event if the device is ready when the system call returns, so a waiting side misses at most the round under way |
| VirtioNet.CommittedReturns | src/lkl/virtio_net.c:182-194 | an event that poll is committed to is still among those it returns at the end of the round |
| VirtioNet.EventReal | src/lkl/virtio_net.c:133-195 | in every run an event that poll returns was asked for and was there: in the same round poll read the variable of that side as 1, and the device was ready on that side when the system call returned |
| VirtioNet.ResetForEvent | src/lkl/virtio_net.c:184-192 | a poll variable is reset only while poll is about to return the event of that side |
| VirtioNet.Blocks | src/lkl/virtio_net.c:160-180 | poll does not spin: after draining at most 4096 bytes, and until the next write to the pipe, it returns only for an event |
| VirtioNet.EventBeforeSignal | src/lkl/virtio_net.c:72-90 | a run in which a transmitter has signalled, its variable is 0 and poll is not about to return |
| VirtioNet.StepInv | src/lkl/virtio_net.c:55-195 | every access of transmitters, receivers and poll keeps the invariant |
| Vring.VirtQueue.ProcessQueue | src/lkl/virtio_queue.c:113-137 | terminates; what the device has taken out of the requests given to it is, entry by entry, once and in order, buffers with the addresses and lengths of the descriptors that the available entries name, up to last_queued_idx; nothing is left, or there is a panic, exactly when what is left leads to one, or the device has answered with a refusal to the request made of what is left, and refused no other; with wrapping indices and a driver that adds entries any finite number of times meanwhile |
| Vring.VirtQueue.MergeRequest | src/lkl/virtio_queue.c:88-111 | a merged request is the longest run of pending entries that fits and never reads past avail->idx; a panic exactly if one of these entries names a bad descriptor or the descriptor looked at last is chained |
| Vring.OneRequest | src/lkl/virtio_queue.c:88-111 | pending entries determine the request made of them, or that there is a panic instead, in both modes |
| Vring.VirtQueue.ChainRequest | src/lkl/virtio_queue.c:88-111 | the buffers of one chain in order with their total, complete, short by one, or a panic, each with its cause |
| Vring.ChainExact | src/lkl/virtio_queue.c:100-108 | the request carries the whole chain if and only if it has at most the maximum of descriptors and none is bad, and is cut short without a panic if and only if it has exactly one more and none of those that fit is bad |
| Vring.LosesLast | src/lkl/virtio_queue.c:100-108 | a ring of 32 descriptors and a chain of 20 of which the request made has 19 buffers |
| Vring.VirtQueue.ProcessOne | src/lkl/virtio_queue.c:88-111 | a panic exactly if the pending entries lead to one; otherwise the device is called once, with the request made of them, and its answer is returned: negative with nothing taken, or the number of entries whose buffers it has got |
| Vring.VirtQueue.OfferedAgain | src/lkl/virtio_queue.c:123-134 | after an answer of 0, without new entries, the next call gets the same request |
| Vring.VirtQueue.Following | src/lkl/virtio_queue.c:54-70 | the wrapped comparison detects the end exactly when no further entry is available |
| Vring.SlotOf | src/lkl/virtio_queue.c:35-47 | masking a wrapped index gives the slot of the unwrapped position |
| RedBlackTree.RbTree.Insert | src/include/tree.h:590-619 | adds exactly the new node, or returns the node with its key and changes nothing; order, parent links, colours and black heights are kept |
| RedBlackTree.RbTree.InsertColor | src/include/tree.h:400-443 | repairs a red node under a red parent, keeping the in-order sequence and writing only nodes of the tree |
| RedBlackTree.RbTree.Remove | src/include/tree.h:523-588 | removes exactly the given node and keeps order, parent links, colours and black heights |
| RedBlackTree.RbTree.RemoveColor | src/include/tree.h:445-521 | repairs a subtree that is one black node short, keeping the in-order sequence |
| TreeBalance.ShortSibling | src/include/tree.h:445-521 | the sibling that the repair reads always exists |
| TreeBalance.HeightBound | src/include/tree.h:54-55 | the height is at most 2 lg (n + 1) |
| RedBlackTree.RbTree.Run | src/include/tree.h:400-619 | any sequence of insertions and removals behaves as a finite set of nodes with distinct keys |
| RedBlackTree.RbTree.Find | src/include/tree.h:621-637 | the node with the key, or NULL exactly if there is none |
| RedBlackTree.RbTree.NFind | src/include/tree.h:639-658 | the node with the least key not below the search key |
| RedBlackTree.RbTree.Next | src/include/tree.h:660-680 | by links alone, from each node to its successor in key order |
| RedBlackTree.RbTree.Prev | src/include/tree.h:682-702 | by links alone, from each node to its predecessor, the inverse of Next |
| RedBlackTree.RbTree.MinMax | src/include/tree.h:704-717 | the first or the last node |
| RedBlackTree.RbTree.ForEach | src/include/tree.h:660-717 | from the least node by successors, every node is visited once in ascending order |
| RedBlackTree.RbTree.RotateLeft | src/include/tree.h:336-354 | relinks three nodes and their parent so that the in-order sequence is unchanged |
| RedBlackTree.RbTree.RotateRight | src/include/tree.h:356-374 | the mirror image |
| RedBlackTree.SortedUnique | src/include/tree.h:47-55 | which nodes are in the tree determines the order in which they are visited |
| SplayTree.Splay.Splay | src/include/tree.h:203-236 | terminates, keeps the in-order sequence, and brings the sought key or a neighbour with nothing in between to the root, writing only nodes of the tree |
| SplayTree.PartedItems | src/include/tree.h:154-156 | after a splay every other item is on the same side of the key and of the root |
| SplayTree.Splay.Find | src/include/tree.h:122-131 | the node with the key if there is one, and the content is unchanged |
| SplayTree.Splay.Insert | src/include/tree.h:158-180 | adds exactly the node if its key is new, and otherwise returns the one there |
| SplayTree.Splay.Remove | src/include/tree.h:182-201 | takes out exactly the node with the key, if any, and says whether it did |
| SplayTree.Splay.Assemble | src/include/tree.h:106-111 | puts the three trees together again in order |
| SplayTree.Splay.RotateRight | src/include/tree.h:82-86 | keeps the in-order sequence of the three trees together |
| SplayTree.Splay.RotateLeft | src/include/tree.h:88-92 | the mirror image |
| SplayTree.Splay.LinkLeft | src/include/tree.h:94-98 | moves the root to the tree of larger nodes, keeping the sequence |
| SplayTree.Splay.LinkRight | src/include/tree.h:100-104 | moves the root to the tree of smaller nodes, keeping the sequence |
| Bitmap.FindFirst | src/include/bitops.h:139-181 | agrees with a bit-by-bit search: the least bit sought, or the size if there is none |
| Bitmap.FindNext | src/include/bitops.h:209-286 | below size the least bit sought at or after the offset; otherwise there is none in range |
| Bitmap.Weight | src/include/bitops.h:520-534 | the number of set bits below nbits |
| Bitmap.RegIsFree | src/include/bitops.h:446-476 | whether all bits it touches are clear |
| Bitmap.RegWrite | src/include/bitops.h:446-488 | sets or clears exactly the bits it touches, for orders within a word and across many |
| Bitmap.TouchedExactly | src/include/bitops.h:446-488 | the bits touched are those of the region if and only if it lies within one word or starts at a word boundary |
| Bitmap.FindFreeRegion | src/include/bitops.h:490-503 | the lowest aligned all-clear region is set bit for bit, and failure means there is none |
| Bitmap.AllocateRegion | src/include/bitops.h:505-512 | refuses exactly if a bit is set, and otherwise sets them |
| Bitmap.ReleaseRegion | src/include/bitops.h:514-518 | clears exactly the bits |
| Bitmap.RegionMap.Allocate | src/include/bitops.h:505-512 | over any run of aligned calls live regions stay disjoint and the set bits are exactly theirs; succeeds exactly if the region is disjoint from all live ones |
| Bitmap.RegionMap.Find | src/include/bitops.h:490-503 | the lowest aligned region disjoint from all live ones becomes live |
| Bitmap.RegionMap.Free | src/include/bitops.h:514-518 | a live region is given back without touching the others |
| Words.BitLastWordMask | src/include/bitops.h:47 | the mask of the last word has exactly the low n bits |
| Words.BitShl | src/include/bitops.h:465 | shifting moves bits up and loses those that leave the word |
| Words.AndMask | src/shared/mpmc_queue.c:69 | masking with 2^k - 1 is taking the remainder |

## Left out

- MpmcQueue.WordsAgree: buffers of more than 2^61 cells and the sleeping threads named next are left out.
- MpmcQueue.WordRuns: a thread that sleeps through 2^61 operations between loading a position and using it is beyond it; its compare-and-swap could then succeed on a position that has come round again.
- MpmcQueue.StepRefines: assumes sequential consistency; the weaker memory orders of the source are not modelled.
- HostCall.NeverFull: takes the queues as bounded first-in first-out queues; an enqueue that meets a cell whose dequeue is still under way retries, and by MpmcQueue.FullOrBusy there is no other reason to.
- Arena.Arena.Stage: sizes are unbounded; sums beyond 2^64 are not modelled, nor are failing host calls.
- Arena.Arena.Readv: the host kernel is taken to leave the headers alone; the length check before each copy then never fires.
- FutexList.Futexes.Tick: times are whole microseconds without an upper bound.
- Bitmap.FindNext: sizes and positions do not overflow int.
- Vring.VirtQueue.ProcessQueue: descriptors do not change while the queue is processed, byte order conversion is not modelled, and a driver that never stops adding, or a device that never stops answering 0, is left out: with one the loop of the source need not end.
- RedBlackTree.RbTree.Remove: the augmentation hook, empty by default, is not modelled.
- VirtioNet.NeverStalls: hang-up and error returns of poll and the pipe are not modelled.
- Exit, joining and cancelling of lthreads beyond leaving the CPU; the sleep tree of lthread.c.
- The other host calls, which use slot and arena as read and write do.
- SPLAY_NEXT and SPLAY_MINMAX, find_last_bit, bitmap_set and bitmap_clear.
- Enclave loading, attestation, configuration, disk and device back ends.
