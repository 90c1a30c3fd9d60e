# Blockchain indexer: verified model

A Dafny model of the indexer's concurrent and stateful core, with proofs that hold for every input, every
schedule and every run. Check everything with `dafny verify dfyconfig.toml`.

## What is modelled

* **Fetching** (`Storage`, `Pipeline`, `PartialRuns`, `WorkerLeak`, `LargeBlock`, `Gaps`, `ReceiptGaps`, `Durability`,
  `Reorganization`, `Fetcher`). Storage is three tables (blocks, receipts, an optional latest height) changed by
  single writes, and every operation is described by the log of the writes it issues. `Pipeline` is
  `FetchRangeConcurrent` as a state machine: a sender, W workers and a reordering collector on channels of capacity
  W, with a schedule being any sequence of enabled actions, including failures and cancellation. The log of every
  schedule is a prefix of the sequential log, so the concurrent and the sequential fetch leave the same store.
  `LargeBlock` is the receipt worker pool. `PartialRuns` says what an error return can have written. `WorkerLeak`
  says which error returns leave goroutines behind. `Durability` runs batches, retries and crashes between any two
  writes, and `Reorganization` the crashes of a retry on a changed chain. `Fetcher` is the class with the loops:
  retry, `FetchBlock`, both range fetches, detection and repair of missing blocks and missing receipts, `Run` and
  `RunWithGapRecovery`. The concurrent fetch and the receipt pool run their state machines step by step.
* **Events** (`EventHistory`, `Streams`, `EventBus`, `MultiNode`). The ring buffer, the bus with its bounded
  channels, its drop accounting and its replay to new subscribers with other goroutines at work between the sends,
  and N nodes that share a Redis or Kafka carrier and skip the messages they sent.
* **RPC proxy** (`RecencyList`, `Cache`, `RequestHeap`, `RequestQueue`). Go's `container/list` with its sentinel
  and real pointers, the LRU cache with TTL on top of it, Go's `container/heap` with sift-up and sift-down, and
  the priority queues.
* **Seals** (`SealerBitmap`, `Quorum`). Sealer bitmaps bit by bit, four ways of counting signers, the structural
  check of a seal, and quorum intersection.
* **Replay** (`OrderedKeys`, `ReplayCache`). Byte order of keys, zero-padded decimals, and event records with
  their time index in one ordered store.
* **Limits and statistics** (`RateLimiter`, `Sums`, `UserOpTally`, `UserOpStats`, `UserOpRace`). The token bucket, and the
  ERC-4337 statistics as conserved sums, with what large blocks and overlapping updates do to them.

`Common` holds a few definitions that several modules share.

The fetcher counts what the environment does to it, in `faults`: each failed lookup, fetch, write or worker run. Contracts
that say when an operation must succeed compare that number before and after.

Randomness of the environment is written as non-deterministic choice (`if *`, `:|`): whether a storage write or
an RPC call fails, which goroutine moves, in which order Go walks a map. Times are integers given as parameters.

## Where the code does not keep what it seems to promise

Each of these is a lemma with the exact condition, or a concrete run.

* `FetchRangeConcurrent` returns nil although heights are missing when it is cancelled before the sender has
  handed out the whole range: a nil return has committed exactly the heights handed out, and is complete if and
  only if the sender reached the end (`Pipeline.NilReturn`, `Pipeline.CancelledNilReturnStoresNothing`).
* After an error return of `FetchRangeConcurrent` nothing drains the results channel. The workers of an uncancelled
  call can all exit if and only if the heights still on their way are no more than there are workers
  (`WorkerLeak.WorkersExitExactly`), so a call can leave workers behind for ever if and only if it asks for at least
  two heights more than it has workers (`WorkerLeak.LeakExactly`); `WorkerLeak.BlockedRun` is such a run.
* A chain reorganization between a failed batch of `Run` and its retry, followed by a crash, can leave a stored block
  without its receipts below the height at which fetching resumes (`Durability.ReorganizationCanLoseReceipts`). Every
  crash of the retry is harmless if and only if the retry does not go back to an indexed height with receipts that are
  not stored yet, and replaces no receipt of a block below (`Reorganization.RetryCrashesExactly`). A restart through
  `RunWithGapRecovery` stores receipts that are missing, unless the latest height is the start height, in which case
  it looks for nothing (`Fetcher.Fetcher.RepairGaps`); a restart through `Run` does not look.
* A replay to a new subscriber runs outside the lock of the bus: it panics if and only if the subscription was closed
  before one of its sends (`EventBus.EventBus.ReplayEvents`), and a subscriber that leaves before its first replayed
  event makes it panic exactly when there is an event to replay (`EventBus.EventBus.LeaveBeforeReplay`).
* `GetOrSet` is described as atomic but releases the lock between its halves. The second half is as good as a call made
  in one piece if and only if the key is not live by then (`Cache.SecondHalfAtOnce`); otherwise it overwrites a value
  that another caller was given (`Cache.TwoCallersCompute`).
* `MultiPriorityQueue` gives up nothing once it is closed, even when it holds requests, while
  `PriorityQueue.Dequeue` still empties a closed queue (`RequestQueue.MultiPriorityQueue.Dequeue`,
  `RequestQueue.PriorityQueue.Dequeue`).
* `EncodeSealersToBitmap` panics on some negative indices and ignores others; `Encode` says exactly which.
* `countBitsInBitmap` counts bits that stand for no validator: it agrees with the count of signers if and only if
  no bit at or past the number of validators is set (`SealerBitmap.CountsAgree`).
* Storing a cached event again under another time leaves a stale index entry; record and index stay in bijection
  if and only if the time is kept (`ReplayCache.EventCache.Store`).
* A reader that resumes after an event misses others that carry the very same time; it misses nothing if and only
  if there are none (`ReplayCache.NothingMissed`).
* The record prefix of a session called `idx` is the index prefix of all sessions, so deleting that session
  destroys the index unless the cache is empty (`ReplayCache.EventCache.DeleteBySession`).
* The rate limiter drops fractions of a token at every call: calls closer together than the time of one token
  never refill the bucket (`RateLimiter.FrequentCallsStarve`).
* Processing a block again counts its operations again: the totals equal the number of stored operations if and
  only if no operation was saved twice (`UserOpStats.UserOpProcessor.TotalsAgree`). A large block always does so, since
  its batches are processed after the whole block has been (`UserOpStats.LargeBlockCountsTwice`,
  `UserOpStats.UserOpProcessor.ProcessLargeBlock`).
* The receipt workers update the statistics at the same time and without a lock. The totals are exact if and only if no
  two overlapping updates share an address, and too small otherwise (`UserOpRace.TotalExactly`,
  `UserOpRace.LostUpdate`).
* The index of operations by block numbers them within their transaction, so operations of one block overwrite
  each other there if and only if two of its transactions hold any (`UserOpTally.BlockIndexCollides`).

Where comments and code differ the model follows the code: the seal check asks for more than two thirds where its
comment says two thirds.

## Model

| member | source | states |
|---|---|---|
| Storage.RangeEffect | pkg/fetch/fetcher.go:427-465 | a completed range stores exactly its heights besides those already there, each block as served, and moves the latest height to the end of the range |
| Storage.RangeKeepsReceipts | pkg/fetch/fetcher.go:427-465 | a completed range stores all receipts of its heights and loses those of no other height |
| Storage.ReceiptOrderIsIrrelevant | pkg/fetch/fetcher_processing.go:181-240 | any order of storing the receipts of a block gives the same store |
| Storage.RangeOrderIsIrrelevant | pkg/fetch/fetcher.go:427-465 | a whole range gives the same store whatever order the receipts of each block are stored in |
| Pipeline.StepInv | pkg/fetch/fetcher.go:498-680 | every action of sender, worker, collector or environment keeps the invariant: channels bounded and in order, results genuine, each height recorded in one place, the log sequential |
| Pipeline.WritesAreSequential | pkg/fetch/fetcher.go:560-680 | after every schedule the writes issued are those of committing start, start+1, ... up to nextHeight and a part of its own, a prefix of what the sequential fetch writes |
| Pipeline.EachHeightInOnePlace | pkg/fetch/fetcher.go:498-541 | in every reachable state that has not failed, a height is in the range if and only if it is unsent, queued, with a worker, in a result slot, in resultMap or committed, and it is in exactly one of these |
| Pipeline.EveryScheduleEnds | pkg/fetch/fetcher.go:498-680 | no schedule deadlocks while the call runs, and none is longer than a measure of its start |
| Pipeline.NilReturn | pkg/fetch/fetcher.go:521-541 | a nil return has committed exactly the heights the sender handed out, with resultMap empty; it is complete if and only if the sender reached the end, as it has whenever the call was not cancelled |
| Pipeline.ErrorExactly | pkg/fetch/fetcher.go:498-690 | a call that has returned returned an error if and only if, somewhere in its schedule, a fetch failed, a worker saw the cancellation or a write failed |
| Pipeline.UneventfulCall | pkg/fetch/fetcher.go:476-690 | when nothing failed and nothing was cancelled, in whatever order results arrive, the return is nil and the whole range is written in order |
| Pipeline.CancelledNilReturnStoresNothing | pkg/fetch/fetcher.go:521-541 | there is a cancelled run that returns nil with nothing stored |
| Pipeline.BlockedForever | pkg/fetch/fetcher.go:544-560 | after a return, a worker that faces a full results channel never moves again |
| PartialRuns.PartialExactly | pkg/fetch/fetcher.go:543-690 | the writes that error returns can leave behind are the proper prefixes of the sequential log, every one of them and nothing else, for any number of workers |
| PartialRuns.AnyWriteMayFail | pkg/fetch/fetcher.go:560-690 | a failing write at any position of the range makes the call return an error with exactly the writes before it |
| PartialRuns.AnyFetchMayFail | pkg/fetch/fetcher.go:498-541 | so does a failing fetch, or a worker that sees the cancellation, at any height, with exactly the heights below written |
| WorkerLeak.WorkersExitExactly | pkg/fetch/fetcher.go:498-560 | after an uncancelled error return all workers can exit if and only if the heights in the results channel, with workers, queued and unsent are at most as many as the workers |
| WorkerLeak.NoneStuck | pkg/fetch/fetcher.go:498-560 | and in that case no schedule gets stuck before they have |
| WorkerLeak.LeakExactly | pkg/fetch/fetcher.go:476-560 | some uncancelled run leaves workers that can never exit if and only if the range has at least two heights more than there are workers |
| WorkerLeak.BlockedRun | pkg/fetch/fetcher.go:498-560 | a reachable run of one worker and three heights after whose error return the worker never moves again |
| LargeBlock.StepInv | pkg/fetch/large_block.go:83-150 | every action of producer and workers keeps the batches in order, each receipt in one place, and the errors within their channel |
| LargeBlock.NoSendBlocks | pkg/fetch/large_block.go:83-135 | in every schedule there is room in the jobs channel for the next batch and in the errors channel for the error of every worker that has one |
| LargeBlock.AllWorkersTerminate | pkg/fetch/large_block.go:95-150 | some action is enabled until all workers have exited, and every schedule is bounded |
| LargeBlock.ExactlyOnce | pkg/fetch/large_block.go:70-156 | no receipt is processed twice in any schedule, and all are when no error was sent |
| LargeBlock.ErrorExactly | pkg/fetch/large_block.go:95-156 | once all workers have exited, an error was sent if and only if a receipt failed or a worker saw the cancellation |
| LargeBlock.FailureHappens | pkg/fetch/large_block.go:95-135 | either cause alone can make the pool report an error, with no receipt stored |
| LargeBlock.ProcessReceiptsParallel | pkg/fetch/large_block.go:70-156 | under any schedule what is stored is part of the receipts, and all of them as a multiset on a nil return; the return is nil if and only if no receipt failed and no worker saw a cancellation |
| Gaps.GapsAreMaximal | pkg/fetch/fetcher_gaps.go:37-103 | the heights next to a gap, if in range, are stored |
| Gaps.GapSizesAddUp | pkg/fetch/fetcher_gaps.go:23-25 | the sizes of the gaps add up to the number of missing heights |
| Gaps.GapsAreUnique | pkg/fetch/fetcher_gaps.go:37-103 | sorted, disjoint, non-adjacent ranges that cover exactly the missing heights are determined by what is stored |
| Durability.NextHeightReady | pkg/fetch/fetcher_processing.go:323-350 | the resume height is inside or just past the stored interval, with everything below it complete, even when the read of the latest height fails |
| Durability.CommitPrefix | pkg/fetch/fetcher.go:354-424 | a crash after any number of the writes of one block leaves a sound store |
| Durability.RangePrefix | pkg/fetch/fetcher.go:427-465 | a crash after any number of the writes of a range leaves a sound store |
| Durability.BlocksStayContiguous | pkg/fetch/fetcher.go:693-750 | from an empty store, across any failures, retries, crashes between single writes and restarts, the stored blocks are one interval from the start height with the latest height inside it, in every state a further crash could leave |
| Durability.NothingBelowLatestIsIncomplete | pkg/fetch/fetcher.go:693-750 | on a stable chain, moreover, every block up to the latest height has all its receipts |
| Durability.ReorganizationCanLoseReceipts | pkg/fetch/fetcher.go:742-746 | a history of Run with a reorganization and a crash that loses receipts below the resume height |
| Reorganization.RetryCrashesExactly | pkg/fetch/fetcher.go:427-465 | a retry on a changed chain leaves every block up to the latest height with all its receipts, at every point where it may crash, if and only if its first height is above the latest one or brings no receipt that is not stored, and no receipt it brings replaces one of a block below |
| Reorganization.ShallowRetryExactly | pkg/fetch/fetcher.go:742-746 | when the chain has not changed below the retried heights, only their first one decides |
| Fetcher.FetchWithRetry | pkg/fetch/fetcher_processing.go:19-83 | the first attempt that yields both block and receipts decides, block and receipts are of that attempt, and failure means that all attempts failed |
| Fetcher.Fetcher.FetchBlock | pkg/fetch/fetcher.go:354-424 | the writes are block, receipts, latest height, cut at the first failure; success if and only if all were issued, and if and only if no fetch, write or worker failed |
| Fetcher.Fetcher.FetchRange | pkg/fetch/fetcher.go:427-465 | the writes are a prefix of the range; success if and only if the whole range was written, and then the store is the old one with the range replayed; it must succeed when nothing failed and nothing was cancelled |
| Fetcher.Fetcher.FetchRangeConcurrent | pkg/fetch/fetcher.go:476-690 | for every schedule, which is returned, the writes are a prefix of the range; a nil return without cancellation gives exactly the store of the sequential fetch; the call fails if and only if an action of the schedule failed, or the context was done before it began |
| Fetcher.Fetcher.DetectGaps | pkg/fetch/fetcher_gaps.go:37-103 | the gaps are sorted, disjoint, non-adjacent and cover exactly the heights of the range that are missing; it must succeed unless a lookup failed or the context was cancelled |
| Fetcher.Fetcher.FillGap | pkg/fetch/fetcher_gaps.go:106-120 | by either path, only heights of the gap are written, and on success the gap is replayed as a whole; it must succeed when nothing failed and nothing was cancelled |
| Fetcher.Fetcher.FillGaps | pkg/fetch/fetcher_gaps.go:123-158 | only heights in the gaps are written, no block is lost, and success without cancellation leaves no height of a gap missing, nor a receipt of it; it must succeed when nothing failed and nothing was cancelled |
| Fetcher.Fetcher.GetNextHeight | pkg/fetch/fetcher_processing.go:323-350 | one past the latest height if that can be read and is not below the start height; the start height in every other case |
| Fetcher.Fetcher.Run | pkg/fetch/fetcher.go:693-750 | it starts one past the latest height or, without one at or above the start height, at the start height, and no write concerns a height below that one; however the polls, batches and retries go, every state a crash could leave stays sound and no stored block is lost; when nothing fails and nothing is cancelled, everything from the first height to the one reached is stored with its receipts, and each poll passes the head it found or gains a whole batch |
| Fetcher.Fetcher.DetectReceiptGaps | pkg/fetch/fetcher_gaps.go:161-227 | the stored blocks of the range that lack receipts, with the transactions that do, in order; all of them unless a lookup failed or the context was cancelled |
| Fetcher.Fetcher.GetMissingReceipts | pkg/storage/pebble_receipts.go:227-250 | the transactions of a stored block without a receipt, in order; none are given if and only if the block is not stored or a lookup failed |
| Fetcher.Fetcher.FillReceiptGap | pkg/fetch/fetcher_gaps.go:230-273 | only receipts that the node serves are written, and on success every missing one that it serves is stored; success if and only if the request and the writes did not fail |
| Fetcher.Fetcher.FillReceiptGaps | pkg/fetch/fetcher_gaps.go:276-315 | the same for all gaps, with none undone by a later one |
| Fetcher.Fetcher.RepairGaps | pkg/fetch/fetcher_gaps.go:326-361 | nothing happens unless the latest height is above the start height; otherwise a successful repair leaves no height missing, and no block of the chain without a receipt; it is successful when nothing failed and nothing was cancelled |
| ReceiptGaps.NoneMissing | pkg/fetch/fetcher_gaps.go:161-315 | once all gaps found are filled, no block of the range that is on the chain lacks a receipt |
| Fetcher.Fetcher.RunWithGapRecovery | pkg/fetch/fetcher_gaps.go:320-366 | a successful block repair leaves no height between start and latest missing, whatever the run afterwards does, and soundness is kept |
| Fetcher.SoundHasNoGaps | pkg/fetch/fetcher_gaps.go:320-353 | a store that only this fetcher wrote has no gap to repair, whatever crashes it went through |
| EventHistory.EventHistory.StoreEvent | pkg/events/bus.go:178-188 | appends to the stored events, with the ring holding the last of them in order |
| EventHistory.EventHistory.Entry | pkg/events/bus.go:203-212 | slot i after the oldest holds the event i places into the window, before and after wrap-around |
| EventHistory.EventHistory.GetRecentEvents | pkg/events/bus.go:191-231 | the last n events that match among the last historySize stored, oldest first, for every n |
| EventBus.EventBus.Publish | pkg/events/bus.go:330-345 | never blocks; accepts exactly when the bus is not stopping and the queue has room |
| EventBus.EventBus.HandleEvent | pkg/events/bus.go:150-175 | one event moves from the queue to the broadcast history; every registered subscription that wants it gets it at the end of its channel and counts it when there is room, and counts a drop otherwise; all other subscriptions are unchanged |
| EventBus.EventBus.BroadcastEvent | pkg/events/bus.go:234-291 | in any order of the map: a wanted event is on the channel of each registered subscription with room, with one more received and nothing else changed, and one more dropped on each full one; the bus counts as many deliveries and drops; no send is on a closed channel |
| EventBus.EventBus.TotalsAreSums | pkg/events/bus.go:234-291 | over every run, the deliveries and drops the bus counts are the sums, over all subscriptions there ever were, of the broadcast events each received and lost |
| EventBus.EventBus.ReceivedInOrder | pkg/events/bus.go:234-291 | what a subscriber has been sent is an interleaving of wanted events in published order, each at most once since it subscribed, and of a part of its replay in order; without a replay only the former |
| EventBus.OfferAccounted | pkg/events/bus.go:250-275 | an offer keeps the statistics of a subscription equal to what was sent and dropped |
| EventBus.EventBus.Subscribe | pkg/events/bus.go:362-418 | a subscription results if and only if the filter is valid and the check did not see the bus stopping; it is registered under the id with a fresh open channel of the effective size |
| EventBus.EventBus.ReplaySend | pkg/events/bus.go:430-440 | a replayed event goes on the channel and counts as received when there is room, and as dropped otherwise, for that subscription alone and not for the bus |
| EventBus.EventBus.ReplayEvents | pkg/events/bus.go:427-441 | with any calls of other goroutines between the sends, the replay offers the recent matching events in order, all of them or up to the first send after the subscription was closed, and panics if and only if there is such a send |
| EventBus.EventBus.SubscribeWithOptions | pkg/events/bus.go:362-425 | the same for a whole subscription with a replay |
| EventBus.EventBus.LeaveBeforeReplay | pkg/events/bus.go:418-421 | Subscribe, Unsubscribe, send: the replay panics exactly when there is an event to replay |
| EventBus.FirstClosed | pkg/events/bus.go:427-460 | the first send that finds the subscription closed cuts the replay |
| EventBus.OfferReplayAccounted | pkg/events/bus.go:430-440 | a replayed event keeps the statistics of a subscription equal to what was sent and dropped |
| EventBus.EventBus.Unsubscribe | pkg/events/bus.go:444-460 | closes the channel registered under the id, which is still open, and only that one |
| EventBus.EventBus.CloseAllSubscriptions | pkg/events/bus.go:294-306 | closes every registered channel exactly once and leaves none registered |
| MultiNode.NodeBus.Publish | pkg/eventbus/redis_adapter.go:276-288 | an event the local bus refuses goes nowhere; an accepted one starts a send exactly when connected |
| MultiNode.NodeBus.HandleMessage | pkg/eventbus/redis_adapter.go:392-414 | an own message changes nothing; any other is counted and offered to the local bus only, with no new send |
| MultiNode.KafkaSkips | pkg/eventbus/kafka_eventbus.go:291-298 | skips exactly the messages that carry the node's own id in a node_id header |
| MultiNode.KafkaSkipsOwnMessages | pkg/eventbus/kafka_producer.go:213-218 | on the headers the producer writes, that is exactly the node's own messages |
| MultiNode.StepInv | pkg/eventbus/kafka_eventbus.go:229-315 | every step of the network keeps the invariant of wires and local buses |
| MultiNode.EntersAtMostOnce | pkg/eventbus/redis_adapter.go:276-340 | in every run each accepted publish enters its origin exactly once and any other node at most once, and none with the id of its origin |
| MultiNode.EnteredOrRefused | pkg/eventbus/redis_adapter.go:392-414 | a foreign message that was handled entered the local bus or was refused by it, never both |
| MultiNode.ReachesEveryOtherNode | pkg/eventbus/redis_adapter.go:392-414 | with distinct ids, a delivered message is in the local bus of the receiver exactly once unless that bus refused that message |
| MultiNode.WireIsBounded | pkg/eventbus/redis_adapter.go:306-340 | wire messages and pending sends never exceed accepted publishes, and no two messages stand for the same one |
| MultiNode.SentExactly | pkg/eventbus/redis_adapter.go:276-340 | in every run, an accepted publish waits to be sent, is on the carrier or was given up by a failed send, if and only if its node was connected as it published |
| RecencyList.RecencyList.Remove | pkg/rpcproxy/cache.go:175-178 | container/list removal: the links of the ring are those of the list without that element |
| RecencyList.RecencyList.MoveToFront | pkg/rpcproxy/cache.go:71-72 | container/list: the element moves to the front and the others keep their order |
| RecencyList.RecencyList.PushFront | pkg/rpcproxy/cache.go:104-106 | container/list insertion at the front |
| Cache.Cache.Get | pkg/rpcproxy/cache.go:54-76 | a hit happens exactly when the key is held and unexpired, and returns the value of its latest Set not deleted, cleared or expired; an expired entry goes; hits plus misses are the Gets |
| Cache.Cache.Set | pkg/rpcproxy/cache.go:79-107 | the key becomes the most recently used, only least recently used keys leave and only when there is no room, and at most maxSize remain; map and list agree and the order is that of last use |
| Cache.Cache.EvictOldest | pkg/rpcproxy/cache.go:181-191 | removes the last key of the order from list and map, and nothing else |
| Cache.Cache.RemoveEntry | pkg/rpcproxy/cache.go:175-178 | the key leaves list and map together |
| Cache.Cache.Delete | pkg/rpcproxy/cache.go:130-137 | the key is forgotten and the others keep values and order |
| Cache.Cache.Clear | pkg/rpcproxy/cache.go:140-146 | nothing is held |
| Cache.Cache.Cleanup | pkg/rpcproxy/cache.go:204-214 | for every walk of the map, exactly the unexpired entries remain, in the order they had |
| Cache.Cache.GetOrSet | pkg/rpcproxy/cache.go:217-232 | a hit gives the cached value, a miss the computed one and a failed computation stores nothing; the contents afterwards, with any calls of others between the halves |
| Cache.Cache.Perform | pkg/rpcproxy/cache.go:54-214 | any sequence of operations has the effect of its parts on order and values |
| Cache.SecondHalfAtOnce | pkg/rpcproxy/cache.go:217-232 | after a miss the rest of GetOrSet is as good as a call in one piece if and only if the key is not live when it stores |
| Cache.TwoCallersCompute | pkg/rpcproxy/cache.go:217-232 | two callers one inside the other both compute, and the value the inner one was given is replaced |
| Cache.TouchPrefix | pkg/rpcproxy/cache.go:93-106 | one use keeps the order of a smaller cache the front of that of a larger one |
| Cache.SmallerIsPrefix | pkg/rpcproxy/cache.go:217-232 | over every trace of uses without expiry, the smaller cache's list is the front of the larger cache's |
| Cache.LargerHitsMore | pkg/rpcproxy/cache.go:217-232 | hence the larger cache hits whenever the smaller does |
| Cache.Follow | pkg/rpcproxy/cache.go:217-232 | a cache that follows such a trace has exactly that list and those hits |
| Cache.Compare | pkg/rpcproxy/cache.go:217-232 | two caches on one trace of GetOrSet: the larger hits whenever the smaller does, and the smaller's list is the front of the larger's |
| RequestHeap.RequestHeap.Up | pkg/rpcproxy/queue.go:48 | container/heap sift-up restores the heap and permutes the items |
| RequestHeap.RequestHeap.Down | pkg/rpcproxy/queue.go:69 | container/heap sift-down restores the heap on the first n and leaves the rest |
| RequestHeap.RequestHeap.Push | pkg/rpcproxy/queue.go:208-212 | adds one request and keeps the heap |
| RequestHeap.RequestHeap.Pop | pkg/rpcproxy/queue.go:214-220 | takes out a request that no other precedes by priority and then time, and keeps the heap |
| RequestHeap.RootIsFirst | pkg/rpcproxy/queue.go:195-202 | nothing in a heap precedes its root |
| RequestHeap.SortedIsUnique | pkg/rpcproxy/queue.go:174-188 | without ties a drained queue comes out in one possible order, however it was filled |
| RequestQueue.PriorityQueue.Enqueue | pkg/rpcproxy/queue.go:34-52 | accepts exactly when open and not full; a full queue counts a drop, a closed one does not |
| RequestQueue.PriorityQueue.Dequeue | pkg/rpcproxy/queue.go:56-76 | gives up a request such that nothing held has a smaller priority value, or the same and an earlier time, also after closing; waits exactly when open and empty |
| RequestQueue.PriorityQueue.TryDequeue | pkg/rpcproxy/queue.go:80-95 | gives up such a request exactly when open and not empty, and otherwise changes nothing |
| RequestQueue.PriorityQueue.Drain | pkg/rpcproxy/queue.go:174-188 | returns everything held in ascending order of priority value and then of time, and leaves the counters alone |
| RequestQueue.PriorityQueue.NothingLost | pkg/rpcproxy/queue.go:151-155 | enqueued = dequeued + drained + size after every operation |
| RequestQueue.MultiPriorityQueue.Enqueue | pkg/rpcproxy/queue.go:240-250 | a request of unknown priority is refused; the others go to the queue of their priority |
| RequestQueue.MultiPriorityQueue.Dequeue | pkg/rpcproxy/queue.go:253-268 | while open, a request such that nothing in any of the three queues has a smaller priority value, or the same and an earlier time; nothing once closed |
| SealerBitmap.CountSigners | pkg/fetch/parser.go:354-369 | the number of validators the bitmap names |
| SealerBitmap.Decode | pkg/fetch/parser.go:406-423 | the list of validators the bitmap names |
| SealerBitmap.ExtractSigners | pkg/fetch/parser.go:155-187 | the validators at exactly the decoded indices, in order; none for a missing seal |
| SealerBitmap.CountBits | pkg/fetch/fetcher_consensus.go:277-287 | Kernighan's count is the number of all indices the bitmap names |
| SealerBitmap.CountsAgree | pkg/fetch/fetcher_consensus.go:277-287 | it equals the signer count if and only if no bit at or past the number of validators is set |
| SealerBitmap.Encode | pkg/fetch/parser.go:427-444 | panics exactly on the stated inputs; otherwise the bitmap has the needed size and names exactly the indices in range |
| SealerBitmap.DecodeEncoded | pkg/fetch/parser.go:406-444 | decoding an encoded list gives its members in range, ascending, each once |
| SealerBitmap.EncodeDecoded | pkg/fetch/parser.go:406-444 | encoding a decoded bitmap gives it back, cut or filled to size and masked to the first n bits |
| SealerBitmap.SameNames | pkg/fetch/parser.go:427-444 | a bitmap is determined by its length and the indices it names |
| Quorum.VerifySeal | pkg/fetch/parser.go:249-294 | accepts exactly a seal of the right length with a non-zero signature and more than two thirds of the validators as signers |
| Quorum.QuorumsIntersect | pkg/fetch/parser.go:273-281 | two accepted seals share at least floor((n-1)/3)+1 signers, so one that is not faulty |
| Quorum.ThresholdIsTight | pkg/fetch/parser.go:278-281 | for n validators, two sets of one signer fewer can share too few to include a correct one if and only if n is no multiple of three |
| Quorum.QuorumIsThreshold | internal/constants/chain.go:139-154 | the configurable quorum at 2/3, also through its defaults, is the threshold of the seal check for every validator count of an int, and HasQuorum decides as the check does |
| Quorum.QuorumIsLeastAbove | internal/constants/chain.go:139-148 | for every fraction and count that do not overflow, the configurable quorum is the smallest whole number above that fraction of the validators |
| OrderedKeys.DecimalOrder | pkg/multichain/types.go:118-120 | zero-padded decimals of one width sort as numbers |
| OrderedKeys.PaddedOrder | pkg/multichain/types.go:118-120 | twenty digits hold every uint64: byte order is numeric order, and the text determines the number |
| OrderedKeys.BlockKeyOrder | pkg/multichain/types.go:92-94 | block keys of a chain sort by height |
| OrderedKeys.LogKeyOrder | pkg/multichain/types.go:107-109 | log keys of a chain sort by block and then by index |
| OrderedKeys.BlockKeyIsUnique | pkg/multichain/types.go:92-94 | whatever the chain identifiers, two blocks never share a key |
| OrderedKeys.BlockIsNoLog | pkg/multichain/types.go:92-109 | nor do a block and a log |
| ReplayCache.PrefixesSelect | pkg/resilience/event_cache.go:57-77 | the two prefixes of a session select exactly its records and exactly its index entries |
| ReplayCache.KeysInBijection | pkg/resilience/event_cache.go:57-77 | distinct events have distinct records and index entries, and no record is an index entry |
| ReplayCache.IndexInOrderOfTime | pkg/resilience/event_cache.go:68-72 | index entries of a session that sort earlier are not later in time |
| ReplayCache.EventCache.Store | pkg/resilience/event_cache.go:80-105 | two writes; records and index stay in bijection if and only if an event stored again keeps its time |
| ReplayCache.EventCache.GetAfter | pkg/resilience/event_cache.go:108-171 | the first events by the index, up to the limit and each once, that are later than the given event if that is still cached, and all of the session's otherwise, sorted by time in any order of equal times |
| ReplayCache.SortByTime | pkg/resilience/event_cache.go:165-168 | an unstable sort: the same events, ascending in time |
| ReplayCache.FirstDueByTime | pkg/resilience/event_cache.go:129-170 | none is returned twice, and nothing left out is earlier than anything returned; below the limit nothing is left out |
| ReplayCache.NothingMissed | pkg/resilience/event_cache.go:147-155 | a reader below its limit misses nothing if and only if no other event has the time of the last one it saw |
| ReplayCache.EventCache.Cleanup | pkg/resilience/event_cache.go:227-275 | exactly the events before the cutoff go, with their index entries, and their number is returned |
| ReplayCache.EventCache.DeleteBySession | pkg/resilience/event_cache.go:278-313 | exactly the events of the session go; the index of the others survives if and only if the session is not called idx or nothing was cached |
| ReplayCache.ConnectionManager.DeliverEvent | pkg/resilience/connection.go:243-314 | the event is cached in every case, and marked delivered exactly when the client is connected and its channel had room; then and only then it is at the end of the channel; a connected session has it as its last event either way, and other sessions are unchanged |
| ReplayCache.ConnectionManager.HandleReconnect | pkg/resilience/connection.go:197-240 | a session that is known and can be saved is active again with the last event the session store has for it, and is given the first events due after the one it names |
| RateLimiter.RateLimiter.Allow | pkg/notifications/email.go:47-72 | after a whole interval the call finds the maximum, sooner what was left and as many whole tokens as have accrued, up to the maximum; it is allowed if and only if that is not zero, and takes one; the time of the call is kept in every case |
| RateLimiter.WindowBound | pkg/notifications/email.go:47-72 | from any call to any later one, at most max + max * duration / interval calls are allowed, over every run with a clock that does not run back |
| RateLimiter.RefusedExactly | pkg/notifications/email.go:59-71 | a call is refused if and only if the limit is zero, or no token is left and less than the time of one has passed |
| RateLimiter.RefilledExactly | pkg/notifications/email.go:54-66 | the tokens found are the largest whole number, up to the maximum, that what was left and the time since the last call account for, and the maximum after a whole interval |
| RateLimiter.PauseServes | pkg/notifications/email.go:47-72 | at any point of any run, after a pause in which the bucket comes to hold k tokens, at most the maximum, the next k calls are all allowed |
| RateLimiter.FrequentCallsStarve | pkg/notifications/email.go:59-65 | calls closer together than the time of one token serve what the bucket held and then nothing |
| UserOpStats.DetectEntryPoint | pkg/fetch/userop.go:112-121 | the address of the first log that is a user operation event of a known entry point, and 0 if and only if there is none |
| UserOpStats.ParseUserOps | pkg/fetch/userop.go:124-261 | one operation per complete event of the entry point, in the order of the events and numbered so, each with the fields of its event and the factory that the last report of its deployment names |
| UserOpStats.EveryBundlerCounted | pkg/fetch/userop.go:56-80 | the bundler of every operation has its bundles counted, and operations are numbered within their transaction |
| UserOpStats.UserOpProcessor.ProcessUserOpsFromBlock | pkg/fetch/userop.go:39-108 | for one call at a time, the operations of the block are saved and counted together or not at all; under each hash there is the last operation saved with it; each bundler gains its bundles and operations, and every table keeps counting exactly what was saved |
| UserOpStats.UserOpProcessor.UpdateStats | pkg/fetch/userop.go:264-362 | for every walk of the maps, each bundler, account and paymaster gains exactly its operations of the batch, each bundler its bundles, each factory the number of distinct accounts it deploys there, and an account names hash, transaction and factory of its first operation with a factory |
| UserOpStats.UserOpProcessor.SaveUserOps | pkg/storage/pebble_userop.go:551-575 | each operation is stored under its own hash, the last one where a hash repeats, and what is stored under other hashes does not change |
| UserOpStats.UserOpProcessor.TotalsAgree | pkg/fetch/userop.go:264-362 | after any run of calls one at a time, bundler and account totals both sum to the operations saved, paymaster totals to those that have one; they equal the stored operations if and only if none was saved twice |
| UserOpStats.UserOpProcessor.ProcessLargeBlock | pkg/fetch/large_block.go:229-237 | a large block is processed as a whole and then batch by batch, and afterwards fewer operations are stored than were saved |
| UserOpStats.LargeBlockCountsTwice | pkg/fetch/fetcher_indexing.go:227-235 | for every bundler, account and paymaster the batches count exactly what the whole block has counted already |
| UserOpRace.StatisticExactly | pkg/fetch/userop.go:270-286 | over every interleaving of reads and writes, a statistic is never too large, and exact if and only if no two of its updates overlapped |
| UserOpRace.TotalExactly | pkg/fetch/userop.go:264-346 | the total is exact if and only if no overlapping updates share an address, and too small otherwise |
| UserOpRace.LostUpdate | pkg/fetch/userop.go:271-283 | two workers read, then both write: one update is lost |
| UserOpTally.Conservation | pkg/fetch/userop.go:264-346 | a table that counts operations by role sums to the number of operations that have the role |
| Sums.SumWithout | pkg/fetch/userop.go:270-286 | the sum of a table does not depend on the order in which it is walked |
| UserOpTally.SavedOnce | pkg/storage/pebble_userop.go:551-575 | operations kept by hash are as many as were saved if and only if none was saved twice |
| UserOpTally.FoundExactly | pkg/storage/pebble_userop.go:551-575 | every operation ever saved is found unchanged under its hash if and only if no two different ones share a hash, so always when none repeats |
| UserOpTally.BlockIndexCollides | pkg/storage/schema.go:1622-1625 | operations of one block overwrite each other in the index by block if and only if two of its transactions hold any |

## Left out

- RPC, HTTP, Redis, Kafka and SMTP transport, encryption, retries of connections, serialization and its escaping: a message carries what was sent.
- Logging, metrics, health checks, configuration and the adaptive optimizer.
- Block processors, log events, fee-delegation and consensus metadata of a fetched block: the two range fetches agree on blocks, receipts and latest height only.
- Backoff times, and cancellation during one: a retry is one more answer of the node.
- Storage writes are atomic one by one; a write inside a database batch is one write.
- Heights are unbounded naturals, and loops over an inclusive range require an end below the largest uint64, as they would not end otherwise.
- Fetcher.Fetcher.Run: the head of the chain is assumed to leave room for one batch below the largest uint64; waiting times between polls are not modelled, and a run is as long as the list of answers it is given.
- Fetcher.Fetcher.StoreReceipts: whether a block counts as large is a free choice, which covers every threshold; the batch size and the number of workers are the defaults.
- Fetcher.Fetcher.RepairGaps: a stored receipt that a reorganization has made stale is not missing and is not repaired, in the source neither.
- Fetcher.Fetcher.FetchRangeConcurrent: it stands for one call; two calls at once on one store are not modelled.
- EventBus: subscriptions are records in a table under handle numbers where the source shares pointers; a filter is a pure predicate; histories of one subscription are kept as sequences.
- EventBus.EventBus.ReplayEvents: each call of another goroutine and each send is one step.
- EventBus.EventBus.HandleEvent: broadcasting is one step under the lock of the bus, as in the source.
- MultiNode.ReachesEveryOtherNode: the carrier may lose messages and delivers each at most once to a node; Kafka consumer groups and offsets are not modelled.
- Cache: an entry is a value in the map with a pointer to its list element, where the source's entry is a record that both share; element and entry agree on the key.
- Cache.Cache.GetOrSet: what others do while fn runs is a list of operations; each of them holds the lock as a whole, as in the source.
- Cache.Cache.constructor: a maximum size below one makes the eviction loop of Set spin and is excluded.
- RequestQueue.PriorityQueue.Dequeue: one pass between two waits; wake-ups, and the dequeue with a timeout, are not modelled.
- RequestQueue.PriorityQueue.Drain: requests with the same priority and time come out in some order.
- Quorum.VerifySeal: the structural check only; verification of the BLS signature is a separate function of the source and is not part of this model.
- ReplayCache.EventCache.Store: the defaults for a missing id and a missing time are left to the caller, who always sets both; times before 1970, which print with a sign, are excluded, and so are session identifiers with a slash, which are never generated.
- ReplayCache.ConnectionManager.DeliverEvent: the generated event id is new to its session; an error of the store is not modelled.
- The session store, its state index and its expiry.
- RateLimiter: the float arithmetic of a refill is exact division here.
- UserOpStats.UserOpProcessor.UpdateStats: a failing read or write of a statistic, which the source logs and skips, does not occur.
- UserOpRace.TotalExactly: an update adds at least one; reading and writing one statistic are single steps.
- Totals are unbounded where the source has uint64.
- Notification queues and their retry, system contract parsing, multi-chain start and stop, and the API servers.
