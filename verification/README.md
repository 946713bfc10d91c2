# Verified models of the OSTEP concurrency examples and of wzip

The concurrent programs are state machines: a state holds the shared variables and, for every
thread, where it is and its local variables; a step is one lock, unlock, wait, wakeup, test or
memory access of one thread; a run is any finite sequence of steps, so every theorem about runs
covers every interleaving of any number of threads. Where the original updates an object in
place (the ring, a vector, the counter, the queue, the lists, `wzip`'s output stream) there is
also a class with methods that do the same. `-d`, `-p`, `loops`, `max` and the numbers of
threads are parameters.

| files | what they model |
|---|---|
| `Basics.dfy` | optional values, weighted totals over threads, parts of logs |
| `PcBuffer.dfy`, `ProducerConsumer.dfy`, `PcInvariant.dfy`, `PcAccounts.dfy`, `PcLiveness.dfy` | the bounded buffer with two condition variables, and the `main` that starts, feeds and joins its threads |
| `Vector.dfy`, `VectorInvariant.dfy`, `VectorSerial.dfy`, `VectorRuns.dfy`, `VectorOrders.dfy`, `VectorRetry.dfy`, `VectorEnd.dfy`, `VectorAgree.dfy` | `vector_add` under address order, under a global lock around acquisition, under trylock with back-off, and without locks |
| `LinkedQueue.dfy`, `TwoLockQueue.dfy` | the queue with a head lock and a tail lock, over a heap whose freed nodes are handed out again |
| `ApproxCounter.dfy`, `CounterHistory.dfy` | the approximate counter, and its counts against the calls that have been made |
| `HashLists.dfy`, `HashTable.dfy` | the linked list and the hash table over 101 lists |
| `ReadersWriter.dfy` | the readers-writer lock as it is written |
| `Wzip.dfy`, `WzipProgram.dfy`, `WzipRle.dfy`, `WzipText.dfy`, `WzipExact.dfy` | the `wzip` scanner, the program around it, plain run-length encoding and a decoder for the documented format, what any files are printed as, and when nothing is lost |

Waiting follows POSIX.1-2017 (System Interfaces, section 3, `pthread_cond_wait`): a woken thread
must take the mutex again and tests again, other threads may get in first, and a sleeper may wake
for no reason. Mutexes are not recursive. Memory is sequentially consistent.

Some properties are not true of the code everywhere. They are stated with the exact condition:

- The producer/consumer program needs `consumers >= 1`, which nothing checks; without consumers
  it stalls exactly when the items do not fit into the buffer (`PcLiveness.StallsExactly`).
- Global-lock acquisition deadlocks, and with trylock and back-off there comes a point from which no schedule can
  finish, exactly when some call names the same vector twice (`VectorRuns.GlobalStuckExactly`,
  `VectorRuns.TryFinishesExactly`). Even otherwise an unfair schedule can make trylock retry for ever; the
  length of its runs is bounded exactly if, besides, no two threads name the same vector
  (`VectorRetry.TryBoundedExactly`).
- All interleavings of what `main` sets up end in the same state unless `-d` is given without `-p` to two threads or
  more; then they end differently, under each of the four disciplines (`VectorAgree.AgreeExactly`).
- `rwlock_release_readlock` waits for `writelock` where its comment says it releases it. Readers
  and writers stay apart, but a run completes exactly if nobody ever reads
  (`ReadersWriter.FinishesExactly`).
- `wzip` loses characters of a run of 2^32 or more, characters around most NULs, and the first
  character of a later file that differs from the last one read, in whose place that one is repeated
  (`WzipRle.ZipRoundTrip`, `WzipExact.AnyFileRoundTrip`, `WzipExact.ManyFilesRoundTrip`,
  `WzipText.ManyFilesText`). `procfiles` reads a file again that leaves a token
  counting zero, and for ever if it does so twice (`WzipProgram.EndsExactly`): an empty first file, or one of
  2^32 newlines (`WzipProgram.EndsUnlessEmpty`, `WzipRle.NewlinesForEver`).
- `key % BUCKETS` is negative for most negative keys, so the table takes exactly the
  non-negative keys and the multiples of 101 (`HashLists.InTableExactly`).

## Model

| member | source | states |
|---|---|---|
| PcBuffer.FillHolds | concurrency/threads-cv/main-two-cvs-while.c:22-28 | `do_fill` on a ring with room succeeds and appends its value to the cyclic window that starts at `use_ptr` |
| PcBuffer.GetHolds | concurrency/threads-cv/main-two-cvs-while.c:30-37 | `do_get` on a ring that holds something returns the oldest item of the window and removes exactly that one |
| PcBuffer.EnsuresFailExactly | concurrency/threads-cv/main-two-cvs-while.c:22-32 | the `ensure` in `do_fill` fails exactly on a full ring, the one in `do_get` exactly on an empty one |
| PcBuffer.BoundedBuffer.constructor | concurrency/threads-cv/main-common.c:73-78 | the loop that fills the buffer with EMPTY leaves an empty ring |
| PcBuffer.BoundedBuffer.DoFill | concurrency/threads-cv/main-two-cvs-while.c:22-28 | in place: succeeds exactly when there is room, appends to the window, and changes nothing when it fails |
| PcBuffer.BoundedBuffer.DoGet | concurrency/threads-cv/main-two-cvs-while.c:30-37 | in place: succeeds exactly when something is there, takes the oldest item, and changes nothing when it fails |
| PcInvariant.BaseKept | concurrency/threads-cv/main-two-cvs-while.c:39-69 | every step of every thread, spurious wakeups and barging included, keeps mutual exclusion, the ring, the phases of `main`, and "no lost wakeup": while anyone sleeps on a condition variable, its free chances are at most the threads woken for it, testing, acting or about to signal it |
| PcInvariant.ActWakeups | concurrency/threads-cv/main-two-cvs-while.c:46-50 | filling or getting uses up one chance of its own kind with the hope that meant it, and makes one of the other kind with the signal that will announce it |
| PcInvariant.SignalWakeups | concurrency/threads-cv/main-two-cvs-while.c:50-66 | a signal hands its hope on to the waiter it wakes, or there is no waiter |
| PcAccounts.AccountsKept | concurrency/threads-cv/main-common.c:84-118 | every step keeps the logs of fills and takes in agreement with the threads' loop counters: who filled what in which order, markers last, at most one marker for each consumer |
| PcLiveness.AlwaysSafe | concurrency/threads-cv/main-two-cvs-while.c:22-37 | in every reachable state neither `ensure` has failed, one thread at most is between lock and unlock, 0 <= num_full <= max, `fill_ptr` is (use_ptr + num_full) mod max, exactly the window is not EMPTY, and takes followed by the window equal fills |
| PcLiveness.NeverStalls | concurrency/threads-cv/main-two-cvs-while.c:39-69 | with a consumer (or enough room) no reachable unfinished state is without a thread that can step, even if no spurious wakeup ever comes |
| PcLiveness.StallsExactly | concurrency/threads-cv/main-common.c:63-118 | some run stalls if and only if there is no consumer and producers * loops exceeds `max` |
| PcLiveness.LeftFalls | concurrency/threads-cv/main-two-cvs-while.c:43-69 | a measure of remaining rounds and items falls on every step; a spurious wakeup raises it by at most two |
| PcLiveness.RunsAreShort | concurrency/threads-cv/main-two-cvs-while.c:43-69 | a run has at most 16*producers*loops + 2*producers + 26*consumers + 3 steps and three more for each spurious wakeup |
| PcLiveness.EveryRunCanFinish | concurrency/threads-cv/main-common.c:84-118 | whatever has happened in a run, it can be continued to the exit of all threads without further spurious wakeups |
| PcLiveness.CompletedRun | concurrency/threads-cv/main-common.c:87-118 | a completed run has taken each of 0..producers*loops-1 exactly once, those of producer p as p*loops, p*loops+1, ... in this order, all before the markers; each consumer took one marker, last; `main`'s counts are right and add up to producers*loops |
| Vector.VectorT.constructor | concurrency/threads-bugs/main-common.c:13-19 | `vector_init` sets every element to the value |
| Vector.AddInPlace | concurrency/threads-bugs/vector-global-order.c:23-26 | the in-place loop of `vector_add`, run alone, makes the destination the element-wise sum, also when both vectors are the same |
| VectorInvariant.StepLocked | concurrency/threads-bugs/vector-global-order.c:12-30 | every step of every discipline keeps: a lock is held by exactly the thread whose position says so |
| VectorInvariant.Committing | concurrency/threads-bugs/vector-global-order.c:13-24 | when a thread gets its last lock, both of its vectors are whole, so its call may be appended to the serial order there |
| VectorInvariant.Writing | concurrency/threads-bugs/vector-global-order.c:24-26 | writing one element brings the destination one element closer to its serial value and disturbs no other vector |
| VectorSerial.StepSerial | concurrency/threads-bugs/vector-try-wait.c:14-30 | every step, under each of the three locking disciplines, keeps each vector equal to its serial value but for the elements its holder has still to add |
| VectorRuns.AlwaysSerial | concurrency/threads-bugs/vector-global-order.c:12-30 | in every reachable state a thread writes only while it holds both locks, and each unlocked vector is what the committed calls, made as wholes one after the other, make it |
| VectorRuns.Serializable | concurrency/threads-bugs/vector-global-order.c:12-30 | a finished run, whatever the scripts, equal vectors included, ends as a serial order of all calls that keeps each thread's order would |
| VectorRuns.Runnable | concurrency/threads-bugs/vector-global-order.c:13-22 | with address order the chain of blocked threads wants ever higher locks and ends at a thread that can step |
| VectorRuns.OrderedNeverStuck | concurrency/threads-bugs/vector-global-order.c:13-29 | address-ordered locking never deadlocks, for any number of threads, vectors and scripts |
| VectorRuns.WaiterHoldsGlobal | concurrency/threads-bugs/vector-avoid-hold-and-wait.c:16-21 | only the holder of the global lock ever waits while it holds a vector lock |
| VectorRuns.AddsWithoutGlobal | concurrency/threads-bugs/vector-avoid-hold-and-wait.c:16-28 | no thread of any run has the global lock while it adds |
| VectorRuns.GlobalStuckExactly | concurrency/threads-bugs/vector-avoid-hold-and-wait.c:16-28 | some run deadlocks if and only if some call names one vector twice |
| VectorRuns.RunsAreShort | concurrency/threads-bugs/vector-avoid-hold-and-wait.c:16-28 | a run has at most 310 steps for each call, without trylock, or with it if no call names one vector twice and no two threads name the same vector |
| VectorRuns.EveryRunCanFinish | concurrency/threads-bugs/vector-global-order.c:12-30 | every run with ordered locks, without locks, or with the global lock and two vectors in each call can be finished |
| VectorRuns.TryFinishesExactly | concurrency/threads-bugs/vector-try-wait.c:14-30 | from every reachable state some schedule completes all additions, if and only if no call names one vector twice |
| VectorRetry.TryBoundedExactly | concurrency/threads-bugs/vector-try-wait.c:14-30 | the length of the runs with trylock and back-off is bounded if and only if no call names one vector twice and no two threads ever name the same vector |
| VectorOrders.OrderRun | concurrency/threads-bugs/vector-global-order.c:12-30 | under each discipline, any order of calls, each made as a whole, is a run and ends as the serial execution of that order |
| VectorOrders.OutcomesExactly | concurrency/threads-bugs/vector-try-wait.c:14-30 | the values with which a locking discipline can end are exactly those of the serial orders of all calls, and it can end at all only in address order or if no call names one vector twice |
| VectorEnd.SerialAdds | concurrency/threads-bugs/main-common.c:49-68 | when no vector is both source and destination, a serial execution adds the initial values of the sources, whatever the order |
| VectorEnd.FreeEnd | concurrency/threads-bugs/vector-nolock.c:13-26 | the same for every interleaving of lock-free fetch-and-add steps |
| VectorEnd.SameEnd | concurrency/threads-bugs/vector-nolock.c:13-26 | all four disciplines and all interleavings of them end in the same state when no vector is both source and destination |
| VectorEnd.WorkerCalls | concurrency/threads-bugs/main-common.c:103-117 | `main` gives `worker` no call with the same vector twice, with or without `-d` and `-p`; no vector is both source and destination if and only if there is `-p`, no `-d`, at most one thread, or no loop |
| VectorEnd.WorkersEnd | concurrency/threads-bugs/main-common.c:49-127 | in exactly those cases: without `-p` all of v[0] ends as num_threads*loops; with `-p` all of v[2t] as 2t + loops*(2t+1) for each thread t, or, with `-d` and odd t, all of v[2t+1] as 2t+1 + loops*2t; every other vector as it began |
| VectorAgree.AgreeExactly | concurrency/threads-bugs/main-common.c:49-127 | under each discipline all finished runs end in the same state if and only if there is `-p`, no `-d`, at most one thread, or no loop |
| VectorAgree.InTurnEnd | concurrency/threads-bugs/main-common.c:49-127 | with `-d`, without `-p`, and one call of each of n threads in the order of their numbers, some run under each discipline leaves the Fibonacci numbers F(n) and F(n+1) in all elements of v[0] and v[1], swapped if n is odd |
| LinkedQueue.Queue.constructor | concurrency/threads-locks/concqueue.h:15-21 | `Queue_Init` makes an empty queue of one dummy node |
| LinkedQueue.Queue.Enqueue | concurrency/threads-locks/concqueue.h:23-33 | links one fresh node in place: the values get the new one at the end, the other nodes stay |
| LinkedQueue.Queue.Dequeue | concurrency/threads-locks/concqueue.h:35-48 | returns and removes the oldest value, or reports an empty queue and changes nothing |
| TwoLockQueue.MoveKeepsInv | concurrency/threads-locks/concqueue.h:23-48 | every step of any enqueuers and dequeuers, `malloc` reusing freed addresses, keeps: the chain is intact, each allocated node is in the chain or owned by one thread, and `tail` is the last node except between the two writes of an enqueue; no step touches a freed node |
| TwoLockQueue.LinkReady | concurrency/threads-locks/concqueue.h:29-32 | when an enqueuer dereferences `tail`, it is the allocated last node, although it may have named a freed node before |
| TwoLockQueue.Refines | concurrency/threads-locks/concqueue.h:29-47 | an enqueue takes effect when it writes `next`, a dequeue when it moves `head`, with the oldest value as its result, or when it reads that `next` is NULL, which it is exactly if the queue is empty then; the queue and all logs change in this way only |
| TwoLockQueue.EveryStepFifo | concurrency/threads-locks/concqueue.h:29-47 | the same for every step of every run, and no step touches a freed node |
| TwoLockQueue.AlwaysFifoAndSafe | concurrency/threads-locks/concqueue.h:23-48 | in every reachable state nothing freed has been touched, what was enqueued is what was dequeued followed by the queue, and when all are idle exactly the chain is allocated |
| TwoLockQueue.EveryCallDue | concurrency/threads-locks/concqueue.h:23-48 | in every reachable state each thread has linked exactly the values its `Queue_Enqueue` calls named, in order, but for one under way; each of its `Queue_Dequeue` calls has one result, but for one under way, and returns that; and the values among all results are those that have left the queue |
| TwoLockQueue.EveryOperationCompletes | concurrency/threads-locks/concqueue.h:29-47 | every run can be continued, without new operations and within a bounded number of steps, until all operations under way are completed |
| ApproxCounter.Counter.constructor | concurrency/threads-locks/apprxcntr.c:13-24 | `init` zeroes the global and all local counts |
| ApproxCounter.Counter.Update | concurrency/threads-locks/apprxcntr.c:26-41 | alone: the sum of all counts grows by the amount, only the own local count and the global one change, and the local one stays below the threshold |
| ApproxCounter.Counter.Get | concurrency/threads-locks/apprxcntr.c:43-49 | alone: the global count is at most NUMCPUS*(threshold-1) short of the sum |
| ApproxCounter.MoveKeepsInv | concurrency/threads-locks/apprxcntr.c:29-49 | every step of any updates and gets, whatever the amounts, keeps the accounts, the locks and the threshold; if no amount is negative it also keeps the bounds on what a `get` has read |
| ApproxCounter.Bounds | concurrency/threads-locks/apprxcntr.c:29-49 | if no amount is negative, the global count never exceeds what has been started and lags at most NUMCPUS*(threshold-1) behind what has been completed |
| ApproxCounter.AlwaysExact | concurrency/threads-locks/apprxcntr.c:29-41 | in every reachable state, for any amounts, global plus locals, correcting for a transfer in flight, are all amounts applied, and each unlocked local count is below the threshold |
| ApproxCounter.AlwaysClose | concurrency/threads-locks/apprxcntr.c:29-49 | for amounts that are not negative, both bounds hold in every reachable state for the global count, and for the value of a `get` against what was started and completed when it read |
| ApproxCounter.QuietIsExact | concurrency/threads-locks/apprxcntr.c:29-41 | when all calls have returned, global plus locals are exactly all amounts |
| CounterHistory.EveryCallDue | concurrency/threads-locks/apprxcntr.c:26-49 | in every reachable state the amounts started are those of all `update` calls; each thread has added to each CPU exactly the amounts it was called with for thread ids of that residue, in order, but for one under way; each `get` has read one value, but for one under way, and returns that |
| CounterHistory.CountsExact | concurrency/threads-locks/apprxcntr.c:29-39 | in every reachable state the global count is the sum of what the CPUs have carried to it, each a function of the amounts added there in order: the running sum, moved as a whole and begun again whenever it reaches the threshold; an unlocked local count is what is left of it |
| CounterHistory.CarriedAndResidue | concurrency/threads-locks/apprxcntr.c:30-38 | of the amounts added to a CPU, what is carried and what is left add up to all, and what is left is below the threshold |
| CounterHistory.SmallStaysLocal | concurrency/threads-locks/apprxcntr.c:30-38 | while no amount is negative and those called for each CPU add up to less than the threshold, the global count is zero |
| CounterHistory.TransfersAreFull | concurrency/threads-locks/apprxcntr.c:30-36 | a step of any run that changes the global count adds at least the threshold to it |
| CounterHistory.GetsRead | concurrency/threads-locks/apprxcntr.c:43-49 | what a `get` is about to return was the global count at a moment since it was called, with the amounts completed and started then as recorded |
| ApproxCounter.EveryCallCompletes | concurrency/threads-locks/apprxcntr.c:31-48 | every run can be continued, without new calls and within a bounded number of steps, until all calls have returned: the nested locks never deadlock |
| HashLists.InTableExactly | concurrency/threads-locks/conchsh.h:17-23 | `key % BUCKETS` names one of the lists exactly for non-negative keys and multiples of 101 |
| HashLists.BucketIsResidue | concurrency/threads-locks/conchsh.h:17-23 | the list of a non-negative key is its residue: of b + 101*k it is b |
| HashLists.NewestHas | concurrency/threads-locks/conchsh.h:17-23 | a key is in the list of its residue exactly if it has been inserted |
| HashLists.List.Insert | concurrency/threads-locks/concllist.h:22-36 | in place: one fresh node before the others, which stay as they were |
| HashLists.List.Lookup | concurrency/threads-locks/concllist.h:38-51 | the loop over the nodes returns 0 exactly if the key is there, else -1 |
| HashLists.Hash.constructor | concurrency/threads-locks/conchsh.h:11-15 | `Hash_Init` makes 101 different empty lists |
| HashLists.Hash.Insert | concurrency/threads-locks/conchsh.h:17-19 | the key joins the inserted ones and only its own list changes |
| HashLists.Hash.Lookup | concurrency/threads-locks/conchsh.h:21-23 | 0 exactly if the key has been inserted, else -1 |
| HashTable.MoveKeepsInv | concurrency/threads-locks/concllist.h:22-51 | every step of any insertions and lookups keeps: each list is a chain without a node twice, holding the keys inserted with its residue, and a lookup has passed no node with its key |
| HashTable.AlwaysExact | concurrency/threads-locks/conchsh.h:17-23 | in every reachable state each list ends and meets exactly the keys inserted with its residue, newest first; a lookup about to unlock answers 0 exactly if its key has been inserted by then |
| HashTable.EveryCallDue | concurrency/threads-locks/conchsh.h:17-23 | in every reachable state each thread has linked exactly the keys its `Hash_Insert` calls named, in order, but for one under way, and has answered for exactly the keys of its `Hash_Lookup` calls, but for one under way |
| HashTable.ExactlyTheInserted | concurrency/threads-locks/conchsh.h:17-23 | when all calls have returned, a key is among the inserted ones if and only if some thread was called to insert it |
| HashTable.EveryCallCompletes | concurrency/threads-locks/concllist.h:22-51 | every run can be continued, without new calls and within a bounded number of steps, until all insertions and lookups have returned |
| ReadersWriter.StepKeepsInv | concurrency/threads-sema/reader-writer.c:23-45 | every step keeps: `readers` counts the readers, `lock` admits one, `writelock` is held by one writer or on behalf of the readers, `value` counts the stored increments; while readers hold it `value` stays |
| ReadersWriter.AlwaysExclusive | concurrency/threads-sema/reader-writer.c:56-75 | no reachable state has a writer inside with a reader or another writer, and `value` is the number of completed increments though an increment is two steps |
| ReadersWriter.FrozenOnceRead | concurrency/threads-sema/reader-writer.c:23-37 | once a reader is inside, no writer ever gets in again and `value` never changes |
| ReadersWriter.AllReadAlike | concurrency/threads-sema/reader-writer.c:56-64 | a reader reads the number of increments stored, and all readers of a run, whenever they read, read the same |
| ReadersWriter.RunWork | concurrency/threads-sema/reader-writer.c:56-75 | every step of a run is one of the 9 of a reader's round or the 4 of a writer's: steps taken and steps left are 9*readers*loops + 4*writers*loops |
| ReadersWriter.RunsAreShort | concurrency/threads-sema/reader-writer.c:56-75 | a run has at most 9 steps for each round of a reader and 4 for each of a writer |
| ReadersWriter.EveryMaximalRun | concurrency/threads-sema/reader-writer.c:31-37 | a run that cannot go on has either left the last reader waiting for `writelock` with `lock` held and all others waiting or done, if anyone reads, or finished with `value` at num_writers*loops |
| ReadersWriter.FinishesExactly | concurrency/threads-sema/reader-writer.c:31-75 | a run can be completed if and only if there are no readers or no loops |
| Wzip.LineEnd | ostep-projects/initial-utilities/wzip/wzip.c:174-174 | where the line `getline` returns ends: after its first newline or at the end of the file |
| Wzip.Counts | ostep-projects/initial-utilities/wzip/wzip.c:174-210 | once something is counted the token never counts zero, and it counts no more than has been read, while no counter can overflow |
| Wzip.AgainTheSame | ostep-projects/initial-utilities/wzip/wzip.c:174-210 | a file read again after a token that counted zero leaves a token of the same character; if that counts zero too, it is the same token, for ever |
| WzipProgram.Program.ScanLine | ostep-projects/initial-utilities/wzip/wzip.c:176-209 | the check before a line and the inner loop take the scanner over exactly the characters of that line, and print what it prints |
| WzipProgram.Program.ReadLines | ostep-projects/initial-utilities/wzip/wzip.c:164-214 | reading line by line is scanning the file character by character, wherever the lines end |
| WzipProgram.Program.ProcFiles | ostep-projects/initial-utilities/wzip/wzip.c:216-240 | wherever it ends: prints the tokens of all files, one that leaves a zero count read twice, and the last token; or, at the first file that cannot be opened, the tokens so far and a message |
| WzipProgram.EndsExactly | ostep-projects/initial-utilities/wzip/wzip.c:222-238 | for files of any length, `procfiles` ends if and only if each file it can open leaves something counted after one reading or two, and then it has printed and counts what the scanner does |
| WzipProgram.EndsUnlessEmpty | ostep-projects/initial-utilities/wzip/wzip.c:222-238 | while no counter can overflow, it ends if and only if the first file is not empty |
| WzipRle.PrintBack | ostep-projects/initial-utilities/wzip/wzip.c:27-45 | the documented parse into 5-byte entries undoes the print, and each token takes 5 bytes |
| WzipRle.EncodeCanonical | ostep-projects/initial-utilities/README.md:226-238 | plain run-length encoding decodes to its input, has counts of at least 1, differing neighbours, and no more runs than characters |
| WzipRle.CanonicalUnique | ostep-projects/initial-utilities/README.md:226-238 | there is only one such encoding of an input |
| WzipRle.StepShape | ostep-projects/initial-utilities/wzip/wzip.c:179-208 | away from NULs the tests of the scanner come down to one: the same character as the last or another |
| WzipRle.ScanInStep | ostep-projects/initial-utilities/wzip/wzip.c:164-214 | after any number of characters, printed and current token are the plain encoding of what was read, or a run has been too long and something is lost for good |
| WzipRle.ZipRoundTrip | ostep-projects/initial-utilities/wzip/wzip.c:164-240 | for every non-empty NUL-free file of any length, the program ends with an output that decodes to the file if and only if no run has 2^32 or more characters; the output is then the canonical encoding, 5 bytes for each run and at most 5 for each character |
| WzipRle.NewlinesForEver | ostep-projects/initial-utilities/wzip/wzip.c:222-231 | on a file of exactly 2^32 newlines the program never ends |
| WzipText.ExactRuns | ostep-projects/initial-utilities/wzip/wzip.c:164-240 | for files of any bytes, the first not empty: while no run is too long for its count the program ends, having printed the runs that a definition by characters alone gives |
| WzipText.FilesBounded | ostep-projects/initial-utilities/wzip/wzip.c:164-240 | no such run is longer than all that has been read, so files of less than 2^32 bytes together have no run that is too long |
| WzipText.FilesText | ostep-projects/initial-utilities/wzip/wzip.c:179-208 | for NUL-free files of any length, the first not empty, these runs decode to a text told from the files alone: after text that ends with c, a file that begins otherwise goes on with c for its first character, or for each newline it begins with; the second character of that line is lost if it is c and comes after the first one if it repeats that; all else is as it was |
| WzipText.ManyFilesText | ostep-projects/initial-utilities/wzip/wzip.c:164-240 | so the program ends and its output decodes to that text, whether the files match or not, while no run is too long |
| WzipExact.TextExactly | ostep-projects/initial-utilities/wzip/wzip.c:190-240 | that text is the concatenation of the files if each later non-empty file begins with the last character read before it, and otherwise differs from it at some position |
| WzipExact.ManyFilesCanonical | ostep-projects/initial-utilities/wzip/wzip.c:190-240 | for NUL-free files of any length, the first not empty and each later non-empty one beginning with the last character read before it: if no run of their concatenation has 2^32 or more characters, the program ends with its canonical encoding, 5 bytes for each run and at most 5 for each character |
| WzipExact.ManyFilesRoundTrip | ostep-projects/initial-utilities/wzip/wzip.c:190-240 | for NUL-free files, the first not empty, none of whose printed runs is too long for its count, the program ends with an output that decodes to their concatenation if and only if each later non-empty file begins with the last character read before it; the output is then canonical as above |
| WzipExact.AnyFileRoundTrip | ostep-projects/initial-utilities/wzip/wzip.c:179-208 | for any non-empty file of less than 2^32 bytes, the program ends, and decoding its output gives the file back if and only if every NUL begins a line and is the last byte or followed by two equal bytes other than NUL and newline |

## Left out

- Printing, tracing, pauses, timing, argument parsing, `print_lock` and `do_eos`: they change no shared state.
- Failing pthread calls, `malloc` returning NULL, weak memory, and overflow of `int` counters and pointers: calls succeed, memory is sequentially consistent, integers are unbounded. The 32-bit wrap-around of `wzip`'s counts is modelled.
- `Pthread_join` is taken to deliver the count the consumer returns, not the pointer-sized store through `&counts[i]` at `concurrency/threads-cv/main-common.c:117`.
- Which waiter a signal wakes, and who gets a free mutex, is arbitrary; a signal wakes exactly one waiter if there is one.
- Typos that keep the lock headers from compiling (`note_t`, `hast_t`, `L->lock` without `&`, a returned `void`) are read as their evident intent.
- VectorEnd.WorkersEnd: gives no closed form for `-d` without `-p` with two threads or more, where the end depends on the order (`VectorAgree.AgreeExactly`); what the locking disciplines can then end with is `VectorOrders.OutcomesExactly`, what the lock-free one can is not characterised.
- The `retry` counter of `vector-try-wait.c`, which only `fini` prints.
- LinkedQueue.Queue.Dequeue: does not model `free`; the machine in `TwoLockQueue.dfy` does.
- WzipProgram.Program.ProcFiles: requires that each file leaves something counted, because the original never ends otherwise (`WzipProgram.EndsExactly`).
- WzipExact.ManyFilesRoundTrip: when several files with NULs among them are decoded back is not characterised, though what is printed for them is (`WzipText.ExactRuns`); nor is what several files that do not match are printed as once a run reaches 2^32.
- `wzip`'s `perror` messages, the message of its `main`, and `free(line)` of an uninitialised pointer for an empty file.
- The concurrent code as methods: a method runs alone, so threads, locks and semaphores are modelled on values, as steps of a state machine; the classes give the updates in place that one thread makes. `rwlock_t` has no class of its own.
- ApproxCounter.AlwaysClose: requires amounts that are not negative; the comment at `concurrency/threads-locks/apprxcntr.c:34` assumes positive ones. Thread ids are not negative.
- The address-comparison of vectors is on their numbers, which is their order in the array `v`.
- The `rwlock` with starvation avoidance, `barrier.c`, `rendezvous.c`, `fork-join.c` and `mutex-nostarve.c`: unfinished exercises.
- The deliberately faulty variants (`main-one-cv-while.c`, `main-two-cvs-if.c`, `main-two-cvs-while-extra-unlock.c`, `vector-deadlock.c`, `main-deadlock.c`) and the two-thread demonstrations `main-signal-cv.c` and `main-deadlock-global.c`.
- `datastructures/vector`, `cdecl`, the address-translation and table scripts, `wcat`, `wgrep`, `binsearch`, and the shell, TCP, process and stat programs.
