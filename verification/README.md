# Verified model of the trading system's concurrency kernel

The trading client places, modifies and cancels orders over HTTP. Underneath the curl and JSON plumbing it
has a small kernel of shared data structures, and that kernel is what this project models and proves:

- **LockFreeQueue** - the multi-producer multi-consumer linked queue of `lock_free_queue.h`, as a transition
  system in which every shared read and every compare-and-swap of any number of threads is one step
  (`LockFreeQueue*.dfy`), and as an object with real nodes whose loops one thread runs (`LockFreeQueueObject.dfy`).
- **ThreadPool** - the worker pool of `utils.cpp` with its condition variable, shutdown, and the promise bridge
  `executeAsyncTask` of `utils.h` (`ThreadPool.dfy`, `ThreadPoolRuns.dfy`, `ThreadPoolObject.dfy`).
- **WaitFreeQueue** - the single-producer single-consumer ring of `wait_free_queue.h`, as an object and as two
  interleaved threads (`WaitFreeQueue.dfy`, `WaitFreeQueueRuns.dfy`).
- **MemoryPool**, **CurlConnectionManager**, **CurlRequests** - the block pool, the curl handle pool, and
  concurrent `performCurlRequest` calls over it.
- **JsonTranslation** - the conversion of a parsed rapidjson value to an nlohmann value.
- **TokenManager** - the expiring access-token cache.
- **OrderCache** - how `placeOrder` and `modifyOrder` read a reply and record it, through the JSON conversion
  and the order pool.

`dafny verify dfyconfig.toml` checks everything.

## How to read it

A run is a *schedule*: a finite sequence of labels, each naming a thread (or worker, call, index) and what it
does. `Apply` is total - a label that cannot happen changes nothing - so a lemma about `After(Init, schedule)`
for every schedule is a lemma about every interleaving and every reachable state. Spurious failures of weak
compare-and-swaps, spurious wakeups, request outcomes, clock readings and exceptions of the token fetch are
chosen by the schedule or passed in as parameters. Objects that the source mutates are classes, and their methods
carry the source's own loops. Three of them are tied to their transition systems: the ring by `SoloEnqueue` and
`SoloDequeue`, the linked queue by `AsState` and `StepsAgree` (same invariant, contents and lagging tail; a thread
running alone from there does what the methods do), and the worker pool by `AsPool` (`EnqueueTask` and `WorkerTurn`
move it by exactly the system's Submit, Notify and Work actions).

What a document value has to become is the relation `Means`, what a reply says the relation `Reads`; both speak of the
values and their members by index, not through the functions that compute them.

History variables (`chain`, `pos`, `links`, `takes`, `meters`, `sent`, `received`, `submitted`, `dispatched`,
`orphans`) are ordinary fields that no step reads; `OneChain` and `RingIsInFlight` show that the abstract
queues they describe are determined by the memory alone.

Where the code and its documentation or its intent differ:

- `lock_free_queue.h:58` initialises a local `tail` from itself, and line 66 then helps that local. The snapshot
  is modelled as a read of the shared tail; whether the help of line 66 reaches the shared tail is the field
  `helps`, and every safety result holds for both values. With the local help a dequeue can loop for ever;
  `SoloDequeueReturnsIff` says exactly when.
- `utils.cpp:52` stores `stop` without the mutex, `readme.md:206-210` with it. `lockedStop` selects the variant.
  Safety holds for both; `StrandsIffDeciding` says exactly when a worker can be stranded.
- `enqueueTask` accepts tasks after `stop`, the version in `readme.md:217-226` throws. The model follows the code;
  `DrainedIffNonePushedTooLate` says exactly when such a task is lost.
- A zero block size would make all blocks of a pool one address; `BlocksDistinctIff` gives the exact condition.

Each shared access is one atomic step, and steps interleave (sequential consistency). Node identities are never
reused, because every thread keeps a `shared_ptr` to each node it compares.

## Model

| member | source | states |
|---|---|---|
| LockFreeQueue.StepKeepsInv | lock_free_queue.h:33-76 | every step of every thread keeps one acyclic null-terminated chain, head at or before tail, tail last or next to last, correct snapshots in all threads, private unlinked nodes and exact logs; and takes back no link, datum or advance of head or tail |
| LockFreeQueueRuns.NoBadDereference | lock_free_queue.h:38-68 | in no run does any thread dereference a null or dangling node, in particular not `head_next` at line 68 |
| LockFreeQueueRuns.OneChain | lock_free_queue.h:37-72 | in every reachable memory the next pointers from the head form exactly one path, without repetition, ending in null; the tail is its last or next to last node and the contents are the data after the head |
| LockFreeQueueRuns.PathIsUnique | lock_free_queue.h:19-23 | a null-terminated path is determined by the memory and its first node |
| LockFreeQueueRuns.StepRefinesFifo | lock_free_queue.h:33-76 | each step leaves the contents alone, or is exactly one legal operation of a sequential FIFO queue: an append of the linked node's value, a removal whose thread returns the front, or an observation of emptiness |
| LockFreeQueueCalls.LinearizationIsLegal | lock_free_queue.h:33-76 | for every run the linearization points in order are a legal sequential history that ends in the actual contents |
| LockFreeQueueCalls.EveryCallHasItsPoint | lock_free_queue.h:33-76 | every call that returns has exactly one linearization point by its thread between its start and its return, carrying the call's own argument or result; for a dequeue that returns false the queue is empty at that point |
| LockFreeQueueCalls.NothingPoint | lock_free_queue.h:55-65 | a dequeue that returns false has inside its interval a moment at which the queue was empty |
| LockFreeQueueCalls.LinkedOnce | lock_free_queue.h:42-44 | two links of a run link different nodes |
| LockFreeQueueCalls.CallOf | lock_free_queue.h:33-76 | a busy thread is in one unbroken call, with one and the same node throughout an enqueue |
| LockFreeQueueProgress.NothingLostOrDuplicated | lock_free_queue.h:41-69 | over any run the values in link order are the values in dequeue order followed by the contents; thread by thread the links are what was submitted, in order, less at most one value still being linked, and the dequeues are what was received |
| LockFreeQueueProgress.ProducerOrder | lock_free_queue.h:33-51 | a producer's values are linked in the order of its calls |
| LockFreeQueueProgress.ConsumerOrder | lock_free_queue.h:54-76 | what the successful dequeues of a thread return is its part of the removal log |
| LockFreeQueueProgress.EnqueueRetryBound | lock_free_queue.h:37-49 | the retries of one enqueue that no spurious failure caused number at most 2n + 1 for n links of the queue since the call began, and at most 2n for the n links of the whole run |
| LockFreeQueueProgress.RetryIsPaid | lock_free_queue.h:37-49 | the reason for that bound: an enqueue that retries without a spurious failure does so because of a link or a tail advance since its own tail read |
| LockFreeQueueProgress.DequeueRetryIsPaidIff | lock_free_queue.h:57-73 | a dequeue that goes back to the top of its loop has had head or tail advance past its snapshots if and only if the retry is neither a spurious failure nor, with the local help, line 66 on a tail that still lags |
| LockFreeQueueProgress.DequeueRetryBound | lock_free_queue.h:56-73 | those retries of one dequeue are at most as many as the advances of head and tail since the call began, so at most one more than the values taken and linked since then |
| LockFreeQueueProgress.MissesChangeNothing | lock_free_queue.h:42-69 | a compare-and-swap that fails spuriously changes no memory and, in a loop, sends its thread back to the top |
| LockFreeQueueSolo.LaggingTailStarvesDequeues | lock_free_queue.h:55-74 | with the help on the local variable, once the tail lags behind the only element no schedule of dequeues ever takes a value or returns |
| LockFreeQueueSolo.LaggingTailIsReachable | lock_free_queue.h:50-50 | one enqueue whose final swing fails spuriously leads there |
| LockFreeQueueSolo.BusyThreadReturnsIff | lock_free_queue.h:37-75 | from any reachable state, wherever all threads stand, a thread left alone gets out of its call if and only if it enqueues, or the help of line 66 reaches the shared tail, or the tail does not lag, or it has read its null already; then within 11 steps for an enqueue (its value appended) and 14 for a dequeue (the front taken, or nothing) |
| LockFreeQueueSolo.SoloDequeueReturnsIff | lock_free_queue.h:54-76 | from any reachable memory a dequeue running alone returns if and only if the help reaches the shared tail or the tail does not lag; then it returns the front or finds the queue empty within 11 steps |
| LockFreeQueueSolo.SoloEnqueueAppends | lock_free_queue.h:33-51 | from any reachable memory an enqueue running alone returns within 9 steps with its value appended, and leaves the tail at the last node even if it lagged before |
| LockFreeQueueObject.LockFreeQueue.Enqueue | lock_free_queue.h:33-51 | however the weak compare-and-swaps miss, the loop ends with the value appended, the old nodes in place and the tail last or next to last; without misses it is last |
| LockFreeQueueObject.LockFreeQueue.Dequeue | lock_free_queue.h:54-76 | true exactly when the queue was not empty, and then the front is returned and removed; false leaves the queue as it was |
| LockFreeQueueObject.LockFreeQueue.StepsAgree | lock_free_queue.h:33-76 | in the transition system, a thread running alone from the object's state appends its value, and its dequeue returns exactly where the method may be called, with the front or nothing |
| ThreadPool.StepKeepsInv | utils.cpp:45-81 | every step of workers, callers and destructor, in both variants, keeps mutual exclusion, wakeup accounting, FIFO numbering, one place per task, correct promises and shutdown order |
| ThreadPool.WakeKeeps | utils.cpp:61-74 | no step breaks the wakeup accounting: pushes, notifications, rechecks, blocks, spurious wakeups and notify_all included |
| ThreadPoolRuns.NoLostWakeup | utils.cpp:61-77 | in every reachable state with a blocked worker the queue is no longer than the pending notifications plus the woken workers; with none of these it is empty |
| ThreadPoolRuns.ExactlyOnce | utils.cpp:61-80 | submissions are the dispatches followed by the queue, one task for each call's argument in order; each task is queued, or running on exactly one worker, or done with its promise set to that argument, and only one of these |
| ThreadPoolRuns.CallersGetTheirOwnValue | utils.h:60-70 | every caller that returns gets the value of the task it passed to its own call, no promise is set twice, and no task starts after its caller has returned |
| ThreadPoolRuns.CallsAreSubmissions | utils.h:60-67 | in every run the tasks on record are the arguments of the calls, in the order of their pushes, no more and no fewer |
| ThreadPoolRuns.InternalRunsAreShort | utils.cpp:61-81 | workers and callers left to themselves can take only finitely many effective steps, bounded by a potential |
| ThreadPoolRuns.RestMeansAllReturned | utils.h:60-70 | when they can take none, every call has returned, except calls pushed after the last worker's exit: no caller is stuck |
| ThreadPoolRuns.LockedStopStrandsNobody | readme.md:206-215 | with the store under the mutex, after notify_all no worker is ever blocked or about to block |
| ThreadPoolRuns.ShutdownCanStart | utils.cpp:51-54 | the destructor is never locked out: from any reachable state one step of one worker lets it store stop and notify |
| ThreadPoolRuns.StrandsIffDeciding | utils.cpp:51-74 | in either variant, when stop is stored and notify_all is next, some worker can still be asleep afterwards if and only if one is between its wait predicate and its block |
| ThreadPoolRuns.StrandedForever | utils.cpp:51-58 | such a worker stays asleep under everything but a spurious wakeup or a new notification |
| ThreadPoolRuns.BlockedUntil | utils.cpp:66-74 | after notify_all a blocked worker is woken by exactly two things, a spurious wakeup and a notification that picks it |
| ThreadPoolRuns.UnlockedStopCanStrand | utils.cpp:51-54 | a concrete run of the code's destructor that strands an idle worker |
| ThreadPoolRuns.ShutdownCompletes | utils.cpp:69-81 | after a notify_all that caught nobody deciding, with no later task, all workers exit within a bounded number of rounds, whatever the order of steps inside a round |
| ThreadPoolRuns.LockedShutdownDrains | readme.md:206-215 | the documented destructor: all workers exit, the queue is empty, and every submitted task has been run and its promise set |
| ThreadPoolRuns.DrainedIffNonePushedTooLate | utils.cpp:61-81 | when all workers have exited, every submitted task has been run if and only if none was pushed after the last exit |
| ThreadPoolObject.SubmitSteps | utils.cpp:61-67 | with nobody blocked, a push and its notify_one take the one-worker pool to the one with the task queued last and its promise empty |
| ThreadPoolObject.TurnSteps | utils.cpp:69-81 | two steps of the worker run the front task and set its promise; over an empty queue after stop one step ends the worker |
| ThreadPoolObject.WorkerPool.WorkerThread | utils.cpp:69-81 | after stop the worker loop runs everything queued, in order, and only then exits, all promises set |
| ThreadPoolObject.WorkerPool.ExecuteAsyncTask | utils.h:60-70 | the call returns its own value after exactly the tasks queued before it, then itself, have run in order |
| WaitFreeQueue.Ring.Enqueue | wait_free_queue.h:14-25 | refuses exactly at capacity - 1 values, otherwise appends, writing one slot and moving the tail one place round |
| WaitFreeQueue.Ring.Dequeue | wait_free_queue.h:27-37 | refuses exactly when empty, otherwise returns and removes the front, leaving the buffer alone |
| WaitFreeQueueRuns.StepKeepsInv | wait_free_queue.h:14-37 | every load, slot access and store of either thread keeps head and tail equal to the unbounded counts modulo capacity, at most capacity - 1 apart, and every live slot equal to the value sent for its position |
| WaitFreeQueueRuns.FullTest | wait_free_queue.h:16-20 | the next tail equals the head exactly when capacity - 1 values are in flight |
| WaitFreeQueueRuns.RingIsInFlight | wait_free_queue.h:14-37 | the slots from head round to tail hold exactly the values sent and not received, in order |
| WaitFreeQueueRuns.RingRefinesFifo | wait_free_queue.h:14-37 | in every run the only changes of the contents are an append of the producer's item at the tail store and a removal of the front, which the consumer returns, at the head store |
| WaitFreeQueueRuns.RefusalIsHonest | wait_free_queue.h:18-32 | a call returns false at its load of the other index if and only if the ring is full (or empty) at that instant |
| WaitFreeQueueRuns.SlotsAreOwned | wait_free_queue.h:15-34 | the slot being written is never the one being read nor any live slot, and a value read is the one sent for its position |
| WaitFreeQueueRuns.NothingLostInRing | wait_free_queue.h:14-37 | over any run the accepted items are the returned ones followed by the contents |
| WaitFreeQueueRuns.AcceptedAreOffered | wait_free_queue.h:14-25 | over any run the accepted items, then the one still underway, are the arguments of the enqueue calls in order, less exactly those of the calls that returned false |
| WaitFreeQueueRuns.OwnStepsSuffice | wait_free_queue.h:14-37 | each call ends after at most three further steps of its own thread, whatever the other does |
| WaitFreeQueueRuns.SoloEnqueue | wait_free_queue.h:14-25 | an enqueue without interference leaves buffer, indices and history as the object's Enqueue does |
| WaitFreeQueueRuns.SoloDequeue | wait_free_queue.h:27-37 | the same for a dequeue |
| MemoryPool.BlocksDistinctIff | utils.cpp:18-23 | the carved blocks are pairwise different if and only if they have a size or there is at most one |
| MemoryPool.BlocksAreDisjointRanges | utils.cpp:18-23 | blocks are disjoint byte ranges inside the buffer |
| MemoryPool.Pool.constructor | utils.cpp:18-23 | all blocks are free, at memory + i * blockSize; the pool is in order if and only if blocks have a size or there is at most one |
| MemoryPool.Pool.Allocate | utils.cpp:29-38 | null exactly when all blockCount blocks are held; otherwise a block nobody holds; free and held blocks stay a partition |
| MemoryPool.Pool.Deallocate | utils.cpp:40-43 | what is given back becomes free, and nothing else changes hands; the free and held blocks stay a partition if and only if it was held |
| CurlConnectionManager.Manager.constructor | CurlConnectionManager.cpp:4-31 | pool and free list are the handles that could be opened (see OpenedAppends), none when the global initialisation fails |
| CurlConnectionManager.OpenedAppends | CurlConnectionManager.cpp:22-31 | the handles opened by two stretches of the loop are those of the first followed by those of the second |
| CurlConnectionManager.OpenedOne | CurlConnectionManager.cpp:22-31 | one curl_easy_init opens the handle it returned, and none when it failed |
| CurlConnectionManager.JoinedAppends | utils.cpp:12-16 | what the write callback has stored after more chunks is what it had stored, followed by them |
| CurlConnectionManager.JoinedOne | utils.cpp:12-16 | one chunk is stored as it is, no chunk as nothing |
| CurlConnectionManager.Manager.GetCurlHandle | CurlConnectionManager.cpp:52-61 | none exactly when every handle is held; otherwise a handle nobody holds |
| CurlConnectionManager.Manager.ReleaseCurlHandle | CurlConnectionManager.cpp:63-66 | what is given back becomes free, and nothing else changes hands; the free and held handles stay a partition if and only if it was held |
| CurlConnectionManager.Manager.PerformCurlRequest | order_management.cpp:25-56 | attempts stop at the first success or the third failure; true exactly when a handle was free and one of three succeeded; the handle is given back on every path; the response is its old value followed by what all attempts wrote |
| CurlRequests.PoolKeeps | order_management.cpp:25-49 | no step of any interleaving loses, duplicates or invents a handle |
| CurlRequests.HandlesAreExclusive | order_management.cpp:25-56 | in every interleaving each handle is free once or with exactly one call in flight; no handle is held twice; the free list is empty exactly when all are in flight, and a permutation of the pool when none is |
| CurlRequests.FinishedCallsAreRight | order_management.cpp:25-55 | every finished call made the attempts of its own loop, at most three, none after a success, reports whether one succeeded, and ends with the response it was called with followed by the chunks of all attempts; it made none if and only if it found the free list empty |
| CurlRequests.CallHistory | order_management.cpp:25-51 | over any interleaving each call has the response it was called with and exactly the attempts performed for it, in order |
| CurlRequests.EveryCallEnds | order_management.cpp:25-56 | no call is stuck: its own next five labels end it, from any state and whatever its attempts bring |
| CurlRequests.ReleasedIsReused | CurlConnectionManager.cpp:58-66 | a handle given back and a handle taken right after are the same one |
| JsonTranslation.NumbersKeepTheirValue | utils.cpp:102-109 | the cascade keeps the value of every integer in [-2^63, 2^64) within the range of its result type, and no other number collides with it |
| JsonTranslation.Convert | utils.cpp:85-115 | the loops over members and items build what the value has to become, said kind by kind: the same boolean, real or null, the integer of the same value, the text before the first NUL, the items one by one, and under each C-string name what its last member has to become |
| JsonTranslation.MeansIffTranslated | utils.cpp:85-115 | a value has to become exactly one thing, its translation |
| JsonTranslation.MembersAreLastNamed | utils.cpp:86-91 | the built object has a key exactly when some member's C-string name is that key, with the translation of the last such member |
| JsonTranslation.LookupCommutes | utils.cpp:85-115 | for every tree and path the output has something at the path exactly when the last-wins lookup in the input has, and it is what that part of the input has to become |
| JsonTranslation.OnlyOrderIsLost | utils.cpp:85-115 | trees without NULs and duplicate names translate to the same value if and only if they are equal up to member order |
| TokenManager.Manager.GetAccessToken | token_manager.cpp:6-15 | fields and result are those of the specified step; the call throws exactly when it fetches and the fetch throws, and returns the cached token otherwise |
| TokenManager.EveryCallIsAnswered | token_manager.cpp:6-15 | over every run a call fetches if and only if no success completed at most 59 minutes before its check; it then returns what its own fetch brought, nothing exactly when that threw, and otherwise that success's token |
| TokenManager.FetchGap | token_manager.cpp:9-12 | a fetch after a successful one starts more than 59 minutes after that one completed |
| TokenManager.FetchRate | token_manager.cpp:9-12 | the last of n successful fetches starts more than 59(n-1) minutes after the first completed |
| TokenManager.ReturnedTokensAreFresh | token_manager.cpp:6-15 | a returned token is what the call's own fetch brought, or a non-empty one from an earlier success at most 59 minutes old at the check |
| TokenManager.RefetchIffFailed | token_manager.cpp:9-12 | of two back-to-back calls, the first a fetch, the second fetches again if and only if the first got no token |
| OrderCache.OrderApi.Handle | order_management.cpp:203-229 | a reply with an order takes a block and records what the order means under its id; with the pool exhausted it succeeds and records nothing; a refused reply changes nothing, nor does one that fails a library assertion |
| OrderCache.PlacedIff | order_management.cpp:209-229 | placeOrder finds an order, refuses, or fails an assertion exactly when the document's first members named result, order, order_id, error and message say so; the order is result.order, its id the text of order_id before the first NUL |
| OrderCache.ModifiedIff | order_management.cpp:375-391 | the same for modifyOrder: an order only without an error, under the caller's id |
| OrderCache.OrderApi.HandleAll | order_management.cpp:203-391 | after any run, up to the first reply that fails a library assertion, the cache has for each id what the last of the first 100 orders under it means, and nothing else, and the pool has handed out min(100, orders) blocks; the orders are those of the replies that have one, in order |

## Left out

- LockFreeQueueObject.LockFreeQueue.Dequeue: asks that the help works or the tail does not lag, because otherwise the source's loop does not end (see SoloDequeueReturnsIff), and says nothing about `result` when it returns false, since line 68 may have written it.
- LockFreeQueueObject.LockFreeQueue.Enqueue: one thread only; other threads' steps are in LockFreeQueue, which has no heap objects.
- LockFreeQueueProgress.DequeueRetryBound: does not bound retries caused by spurious failures, nor with the local help those of line 66 on a tail that still lags; nothing bounds either (see LaggingTailStarvesDequeues).
- LockFreeQueueProgress.EnqueueRetryBound: does not bound retries caused by spurious failures, which nothing bounds.
- ThreadPoolObject.WorkerPool.WorkerThread: one worker, started when stop is set; blocking and other workers are in ThreadPool.
- ThreadPoolObject.WorkerPool.ExecuteAsyncTask: one worker and one caller taking turns; several of each are in ThreadPool.
- ThreadPoolRuns.ShutdownCompletes: fairness is given as rounds in which every worker has a turn; tasks are total, so neither an exception nor an endless task is modelled.
- ThreadPoolRuns.DrainedIffNonePushedTooLate: for pools with at least one worker.
- WaitFreeQueue.Ring.constructor: capacity at least 1; with 0 the source divides by zero.
- `cancelOrderRequest` (order_management.cpp:326-329) gives back the address of a map element instead of a block, which by Deallocate puts the pool out of order; cancelling a cached order is not part of this model.
- OrderCache.OrderApi.Handle: starts from the parsed document; header stripping, decompression and the text parser are library behaviour, a failed request or decompression is `Unreadable`, and a value of the wrong kind that rapidjson asserts on is the outcome `None`.
- C++ weak memory ordering and torn reads of `shared_ptr` are not modelled; each shared access is one atomic step.
- Destruction of nodes, promises, buffers and handles is not modelled.
- curl, zlib, websocketpp, rapidjson's lexer and nlohmann internals: external code; a request is a list of arbitrary attempts, a document an arbitrary tree.
- `performBatchAsyncCurlRequest` and `batchNetworkRequests`: the first appends to a vector from several threads without synchronisation, the second is library behaviour.
- The websocket server and client, `main.cpp`, `auth.cpp`, URL building and latency logging: I/O with no state worth a proof.
