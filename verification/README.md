# FeederNet: verified model of its concurrent and indexed core

FeederNet receives trades over multicast, puts them in order, repairs gaps from
a snapshot server and hands them to a database writer and a price aggregator.
Its correctness rests on hand-written structures: lock-free queues, a tagged
index pool, the free list and block index of moodycamel's queue, two hash maps,
an order book, and the sequencing and batching loops that connect them. This
project models those parts in Dafny and proves what they guarantee.

| file | models |
|---|---|
| `MpmcQueue.dfy` | `CustomMPMCLockFreeQueue`, one atomic access per step, any number of threads |
| `FreeList.dfy` | moodycamel's reference-counted `FreeList`, one atomic access per step |
| `TicketProtocol.dfy` | the optimistic-count / overcommit protocol of `dequeue` and `dequeue_bulk` |
| `BlockIndex.dfy` | the explicit producer: block reuse, index doubling, circular lookup |
| `IndexRace.dfy` | the four loads of that lookup, interleaved with index rotation, doubling and releases |
| `TaggedPool.dfy` | `LockFreeThreadSafePool` with its 32-bit index, wrapping 32-bit tag and exhaustion test |
| `Pipeline.dfy` | receiver, sequencer and writer over two `CustomSPSCLockFreeQueue`s and one pool |
| `GapRecovery.dfy` | `TradeMsgStore`, `SnapshotServer`, `TradeRecoveryManager`, `TradeDataSequencer` |
| `OpenAddressing.dfy` | `OpenAddressingHashMap` on an array of slots |
| `ChainingMap.dfy` | `FixedSizedChainingHashMap` on heap nodes |
| `OrderBook.dfy` | `OrderBook<false>` on two level arrays and a map of order objects |
| `Batching.dfy` | the loops of `DBManager` |
| `Vwap.dfy` | `AggregatedTradeMQSender` |
| `Basics.dfy` | options, sums over tables, circular positions |

The concurrent structures are step systems: a total function `Step` performs the
next atomic access of one thread, a run is any sequence of such events, and
weak compare-exchanges may fail at will. Invariants are proved for one step and
carried to all runs. The sequential structures are classes whose methods are
proved against value-level specifications; the specifications carry the
properties.

## What fails, and exactly when it holds

Eight promises turn out not to hold unconditionally. Each has a failing run and its exact condition.

- A one-cell MPMC queue overwrites unread values; the fill is bounded in every run iff the capacity is at least two (`MpmcQueue.OneCellOverwrites`, `MpmcQueue.BoundedIffTwoCells`).
- The pool's exhaustion test never fires. Alone, an allocation reads past `nextFree_` iff it meets an empty chain; under interleaving, a call makes such a read reachable iff held slots and running allocations already use up the pool, and over whole runs iff some call does so (`TaggedPool.ExhaustionTestNeverFires`, `ReadPastEndIffExhausted`, `DoomedIffReserved`, `PastEndIffOverdrawn`; runs: `ExhaustedPoolRun`, `RacingAllocationsRun`).
- The pool's tag protects against ABA only within 2^32 operations: a CAS finds its head iff the first slot is the same and the versions agree modulo 2^32, and then keeps the chain iff it installs the true successor (`TaggedPool.CasFindsHeadIff`, `PopKeepsChainIff`; run from the constructor: `TagWindowIsTight`).
- An SPSC slot that was claimed but not yet read survives the next write iff that write is not a full lap ahead. In the pipeline every message stays in one place in every run, and the first ring is first-in first-out in every run, iff the pool is no larger than a ring (`Pipeline.ClaimSurvivesIffNoLap`, `SafeIffPoolFits`, `FifoIffPoolFits`; runs: `LargerPoolLeaks`, `LargerPoolOverwrites`).
- A recovery that is closed or fails half-way corrupts the stream: with an honest server a message keeps it exact iff its recovery is not broken off, which the message and the channel's script decide; the same over whole runs (`GapRecovery.TradeDataSequencer.Process`, `GapRecovery.TradeDataSequencer.Run`; run: `GapRecovery.BrokenRecovery`).
- `OpenAddressingHashMap::insert` and `operator[]` act as map updates iff the table grows first or no copy of the key lies behind a tombstone (`OpenAddressing.InsertedModel`, `OpenAddressing.OpenAddressingHashMap.Insert`; run: `OpenAddressing.StaleCopyResurfaces`).
- `FixedSizedChainingHashMap::insert` is a map update iff the key is absent (`ChainingMap.AppendIffAbsent`, `ChainingMap.FixedSizedChainingHashMap.Insert`).
- The order book's totals survive an insert iff the id is new or its old order was empty; its best prices survive an update iff no empty level beyond the best is revived (`OrderBook.InsertTotals`, `OrderBook.InsertBest`, `OrderBook.UpdateBest`; runs: `OrderBook.ReusedIdBreaksTotals`, `OrderBook.RevivedLevelMissed`).

Where code and comments differ the model follows the code: `serveGapRequest`
reports an invalid request and serves it all the same, and `allocate` has a
branch that returns null on exhaustion but never takes it.

## Model

| member | source | states |
|---|---|---|
| MpmcQueue.StepKeepsInv | include/Queue.hpp:134-175 | every step of every thread, including spurious CAS failures, keeps the per-cell sequence-number invariant |
| MpmcQueue.ExecKeepsInv | include/Queue.hpp:134-175 | the invariant holds in every state of every interleaving |
| MpmcQueue.InitInv | include/Queue.hpp:120-133 | the constructor's state satisfies the invariant for capacities of at least two |
| MpmcQueue.NoClash | include/Queue.hpp:151-152 | no two threads are ever in the data phase of the same cell |
| MpmcQueue.Fifo | include/Queue.hpp:134-175 | in every run head <= tail <= head + capacity, and the consumer that claimed position p returns the value of the producer that claimed p; with no call in flight exactly the claimed positions were delivered |
| MpmcQueue.StepRefinesQueue | include/Queue.hpp:134-175 | linearizability: tail CAS appends, head CAS removes the front, nothing else changes the abstract queue, and the returned value is the one removed |
| MpmcQueue.EnqueueFailureJustified | include/Queue.hpp:138-149 | at whatever access false is answered, the queue is full or the consumer one lap back is still releasing; a failed CAS never answers |
| MpmcQueue.DequeueFailureJustified | include/Queue.hpp:159-170 | at whatever access null is answered, the queue is empty or the producer of the front is still publishing |
| MpmcQueue.SuccessJustified | include/Queue.hpp:151-153 | true is answered only for a position this thread claimed and whose cell then holds its value; a value only for a position this thread claimed |
| MpmcQueue.CallBegins | include/Queue.hpp:134-137 | a call begins whenever its thread is ready, with its value, and answers nothing yet |
| MpmcQueue.CallKeepsKind | include/Queue.hpp:137-150 | a call keeps its kind and its value until it answers, and a failed CAS goes round the loop from the present counter |
| MpmcQueue.RetryMeansProgress | include/Queue.hpp:137-171 | a call goes round only after a spurious failure or because another thread has claimed a position since |
| MpmcQueue.AnswersMatchClaims | include/Queue.hpp:134-175 | in every run each thread was answered true once per position it claimed and a value once per position it took, but for the call in flight |
| MpmcQueue.SoloEnqueue | include/Queue.hpp:134-154 | from a quiescent state enqueue fails exactly when full and otherwise appends |
| MpmcQueue.SoloDequeue | include/Queue.hpp:155-175 | from a quiescent state dequeue answers null exactly when empty and otherwise returns the front |
| MpmcQueue.OneCellOverwrites | include/Queue.hpp:124-126 | with capacity one, which the constructor accepts, a second enqueue succeeds and destroys the first value |
| MpmcQueue.BoundedIffTwoCells | include/Queue.hpp:124-126 | the fill stays within the capacity in all runs iff the capacity is at least two |
| FreeList.StepKeepsInv | moodycamel/concurrentqueue.h:1459-1538 | every atomic access keeps counts, owners and links consistent |
| FreeList.ExecKeepsInv | moodycamel/concurrentqueue.h:1459-1538 | so in every state of every interleaving |
| FreeList.CountsAndOwners | moodycamel/concurrentqueue.h:1459-1538 | refcount = list reference + references in flight; one adder or one taker per node; a thread about to CAS the head knows the true successor; the list is acyclic |
| FreeList.HandedOutOnce | moodycamel/concurrentqueue.h:1459-1510 | in every run a node was handed out as often as it was added, or once less while the list has it: never to two getters |
| FreeList.ClientKeepsNode | moodycamel/concurrentqueue.h:1473-1510 | from the moment try_get returned a node until a client adds it, it stays off the list and is returned to nobody else |
| FreeList.OutsideChanges | moodycamel/concurrentqueue.h:1466-1497 | a node leaves its client only by add and comes to one only by the try_get that unlinked it |
| FreeList.NextFrozen | moodycamel/concurrentqueue.h:1487-1490 | no step changes a node's next while any thread holds a reference to it |
| FreeList.StepRefinesStack | moodycamel/concurrentqueue.h:1490-1497 | each step pushes an owned node, pops the first node into one thread's hands, or leaves the stack alone; only add and the end of a get change who is outside |
| FreeList.LoadHeadAnswers | moodycamel/concurrentqueue.h:1478-1481 | the head load answers null iff the list is empty, and otherwise goes for the first node |
| FreeList.AnswerJustified | moodycamel/concurrentqueue.h:1459-1538 | try_get answers a node only by releasing the one it unlinked, null only on an empty list or a null head loaded before; add ends only with its node linked or left to the last holder |
| FreeList.CallBegins | moodycamel/concurrentqueue.h:1459-1481 | a call begins whenever its thread is ready, and add takes the node from its client at once |
| FreeList.RetryMeansProgress | moodycamel/concurrentqueue.h:1479-1507 | try_get goes round only because the node left the list, its count changed or another node is first; otherwise each access leads to the next |
| FreeList.NullMeansEmpty | moodycamel/concurrentqueue.h:1473-1510 | in any run, a call that answers null loaded the head at a moment when the list was empty |
| FreeList.SoloTryGet | moodycamel/concurrentqueue.h:1473-1510 | undisturbed, try_get answers null iff the list is empty and otherwise unlinks and answers the first node |
| FreeList.SoloAdd | moodycamel/concurrentqueue.h:1459-1538 | undisturbed, add ends with the node in front of the list |
| FreeList.FlagStep | moodycamel/concurrentqueue.h:1464-1470 | setting the flag makes the caller the adder iff no reference is in flight |
| FreeList.QuiescentNodes | moodycamel/concurrentqueue.h:1459-1538 | with no operation running every node is on the list with count one or outside with count zero: none is lost |
| FreeList.StoreNextStep | moodycamel/concurrentqueue.h:1526-1528 | when the adder rewrites next no reference to the node is in flight |
| FreeList.GiveUpStep | moodycamel/concurrentqueue.h:1530-1534 | after a failed link the adder retries iff no reference is in flight; otherwise the node waits for the last holder |
| FreeList.DropOneStep | moodycamel/concurrentqueue.h:1503-1506 | a dropped reference makes its thread the adder iff it was the last one of a waiting node |
| TicketProtocol.StepKeepsInv | moodycamel/concurrentqueue.h:1955-2052 | every load, ticket, decision and counter update of single and bulk dequeues keeps the protocol invariant |
| TicketProtocol.DecideStep | moodycamel/concurrentqueue.h:2259-2266 | the grant is covered: last ticket granted <= tail + rejections below the first; tickets beyond tail + the overcommit seen are rejected |
| TicketProtocol.GrantsWithinTail | moodycamel/concurrentqueue.h:1992-2003 | no prefix of the tickets is granted more elements than were published |
| TicketProtocol.HeadNeverPassesTail | moodycamel/concurrentqueue.h:1955-2052 | in every run headIndex plus the claims still to come stays at or below tailIndex, and optimisticCount = headIndex + overcommit + tickets in flight |
| TicketProtocol.ClaimedExactlyOnce | moodycamel/concurrentqueue.h:2248-2338 | an index is below headIndex iff exactly one recorded claim covers it, and then it was published |
| TicketProtocol.AnswerJustified | moodycamel/concurrentqueue.h:1955-2052 | a call answers exactly the stretch it added to headIndex; an empty answer at the first test means every element seen is claimed, ticketed or hidden by uncounted rejections |
| TicketProtocol.CallBegins | moodycamel/concurrentqueue.h:1955-1958 | a call begins whenever its consumer is ready and answers nothing yet |
| TicketProtocol.AnsweredExactlyOnce | moodycamel/concurrentqueue.h:2248-2338 | over the answers consumers give in a run, an index is below headIndex iff exactly one answer covers it, and then it was published |
| TicketProtocol.SoloDequeue | moodycamel/concurrentqueue.h:2248-2338 | failed attempts leave no trace: alone, a dequeue gets min(max, tail - head) elements from the head on |
| BlockIndex.BlockDistance | moodycamel/concurrentqueue.h:2014-2016 | the signed quotient of base differences is the block distance |
| BlockIndex.LookupSlot | moodycamel/concurrentqueue.h:2006-2017 | newest slot plus signed distance, wrapped, is the slot of the wanted block |
| BlockIndex.IndexRotate | moodycamel/concurrentqueue.h:1934-1939 | overwriting the slot at the front drops the oldest entry and appends the new one |
| BlockIndex.IndexGrow | moodycamel/concurrentqueue.h:1934-1939 | with room, writing the front slot appends an entry |
| BlockIndex.IndexCopy | moodycamel/concurrentqueue.h:2370-2390 | doubling keeps the entries in use and their order |
| BlockIndex.GrowRing | moodycamel/concurrentqueue.h:1904-1911 | linking a new block behind the tail keeps the circular list |
| BlockIndex.RotateRing | moodycamel/concurrentqueue.h:1857-1860 | moving the tail to its successor turns the oldest block into the newest |
| BlockIndex.StoreReuse | moodycamel/concurrentqueue.h:1857-1860 | reusing an emptied block loses no unread element |
| BlockIndex.StoreGrow | moodycamel/concurrentqueue.h:1895-1919 | a new block takes the element and disturbs no other |
| BlockIndex.StoreAppend | moodycamel/concurrentqueue.h:1947-1951 | writing into the tail block disturbs no other element |
| BlockIndex.StoreRelease | moodycamel/concurrentqueue.h:2037-2041 | releasing an element in any order marks only its own slot empty |
| BlockIndex.Locate | moodycamel/concurrentqueue.h:2006-2017 | the offset computation of dequeue yields the entry at the wrapped signed distance |
| BlockIndex.CopyUsed | moodycamel/concurrentqueue.h:2370-2378 | the do-while copy puts the used slots, oldest first, at the start of the new index |
| BlockIndex.ExplicitProducer.NewBlockIndex | moodycamel/concurrentqueue.h:2356-2393 | the index doubles and the producer stays valid |
| BlockIndex.ExplicitProducer.AddEntry | moodycamel/concurrentqueue.h:1934-1939 | the entry of the new block becomes the newest of the window |
| BlockIndex.ExplicitProducer.Enqueue | moodycamel/concurrentqueue.h:1849-1952 | succeeds iff the tail block has room, the oldest block is empty, or the allocations needed succeed; then appends the element to everything ever enqueued; allocates a block or a doubled index exactly when needed |
| BlockIndex.ExplicitProducer.EnqueueWithAllocation | moodycamel/concurrentqueue.h:1868-1913 | the path with a new block, and a doubled index iff the present one is full |
| BlockIndex.ExplicitProducer.FindBlock | moodycamel/concurrentqueue.h:2006-2017 | after any history of enqueues, claims and releases the lookup finds the block in which the element was stored |
| IndexRace.LookupIsSlot | moodycamel/concurrentqueue.h:2014-2017 | from an intact front and base the computed offset leads to the slot of the wanted block, in any index |
| IndexRace.LookupLoads | moodycamel/concurrentqueue.h:2008-2017 | each of the four loads succeeds and keeps what the next one needs |
| IndexRace.NotOldest | moodycamel/concurrentqueue.h:1857-1860 | the block that is reused is never the block of a consumer that has not released its element |
| IndexRace.OldIndexFrozen | moodycamel/concurrentqueue.h:2380-2390 | an index that was replaced never changes again |
| IndexRace.EntryStays | moodycamel/concurrentqueue.h:1934-1939 | no store of the producer changes the entry of a block that stays in the window, in any index that has it |
| IndexRace.StepKeepsInv | moodycamel/concurrentqueue.h:1849-2052 | every load of a consumer and every store of the producer keeps the indices and all lookups in flight consistent |
| IndexRace.RacingLookup | moodycamel/concurrentqueue.h:2003-2020 | in every interleaving with rotation, doubling and releases, the block found for a claimed element is the one it was enqueued into |
| IndexRace.BlockStart | moodycamel/concurrentqueue.h:1855-1913 | a block start reuses the oldest block iff it is empty, and otherwise doubles the index iff it is full |
| IndexRace.EnqueueCompletes | moodycamel/concurrentqueue.h:1849-1952 | undisturbed and with blocks to spare, at most five accesses publish one element more |
| IndexRace.ClaimTakesNext | moodycamel/concurrentqueue.h:2003-2003 | a claim takes the next element, which no other consumer works on |
| IndexRace.LookupCompletes | moodycamel/concurrentqueue.h:2006-2043 | undisturbed, four accesses find the element's block and a fifth releases it |
| BlockIndex.ExplicitProducer.Take | moodycamel/concurrentqueue.h:2019-2043 | a claimed element, whatever the order of reads, is the one enqueued under its index |
| BlockIndex.ExplicitProducer.Dequeue | moodycamel/concurrentqueue.h:1955-2052 | returns and removes the front of the queue, or None exactly when it is empty |
| TaggedPool.PackHalves | include/MemoryPool.hpp:232-239 | unpack after pack gives the masked halves, and packed heads are equal iff their halves are |
| TaggedPool.PackRoundTrip | include/MemoryPool.hpp:232-239 | pack loses nothing iff both operands fit 32 bits |
| TaggedPool.ExhaustionTestNeverFires | include/MemoryPool.hpp:187-191 | no packed head unpacks to the 64-bit -1 the test compares with |
| TaggedPool.StepKeepsInv | include/MemoryPool.hpp:182-223 | every access keeps chain, owners and snapshots consistent for clients that free what they own and do not over-reserve |
| TaggedPool.ExecKeepsInv | include/MemoryPool.hpp:182-223 | so in every state of every such run |
| TaggedPool.PoolSafety | include/MemoryPool.hpp:173-223 | in every such run the chain is acyclic, free and held slots partition the pool, no slot has two owners and nothing is indexed out of range |
| TaggedPool.SuccessfulCas | include/MemoryPool.hpp:197-199 | a CAS that succeeds finds the very chain its thread loaded; allocation pops the first slot, deallocation pushes its own |
| TaggedPool.AnswerJustified | include/MemoryPool.hpp:182-223 | allocate answers only the first free slot as it leaves the chain for this client, deallocate ends only with its slot in front; a failed CAS answers nothing |
| TaggedPool.CallBegins | include/MemoryPool.hpp:182-211 | a call begins whenever its thread is ready, and deallocate takes its slot from the client at once |
| TaggedPool.CallKeepsKind | include/MemoryPool.hpp:184-222 | a call in flight keeps its kind and its slot until it answers |
| TaggedPool.RetryReloads | include/MemoryPool.hpp:197-201 | a failed CAS has loaded the present chain, and unless it was spurious another operation has succeeded since |
| TaggedPool.SlotAnsweredOnce | include/MemoryPool.hpp:182-223 | in every good run a slot was answered as often as it was given back, or once more while one client has it |
| TaggedPool.ReadPastEndIffExhausted | include/MemoryPool.hpp:182-203 | an undisturbed allocate indexes past the end iff the chain is empty, and never answers null |
| TaggedPool.DoomedIffReserved | include/MemoryPool.hpp:182-203 | in any interleaving, beginning an allocation makes a read past the end reachable iff held slots plus running allocations equal the pool size |
| TaggedPool.PastEndIffOverdrawn | include/MemoryPool.hpp:182-223 | over every run with owned frees and living tags, a read past the end is ever reachable iff some call overdraws the pool |
| TaggedPool.RacingAllocationsRun | include/MemoryPool.hpp:182-203 | two allocations that both begin on a non-empty chain and still read past the end |
| TaggedPool.WholeAllocate | include/MemoryPool.hpp:182-203 | an undisturbed allocate hands out the first free slot |
| TaggedPool.WholeDeallocate | include/MemoryPool.hpp:205-223 | an undisturbed deallocate puts the slot in front |
| TaggedPool.ExhaustedPoolRun | include/MemoryPool.hpp:182-203 | a run that reads past the end: one slot, one thread, two allocations |
| TaggedPool.CasFindsHeadIff | include/MemoryPool.hpp:197-198 | a CAS finds its head iff the first slot is the same and the versions agree modulo 2^32 |
| TaggedPool.PopKeepsChainIff | include/MemoryPool.hpp:193-199 | an allocation whose CAS succeeds keeps the chain iff it installs the successor of the present head |
| TaggedPool.TagWindowIsTight | include/MemoryPool.hpp:195-199 | a run from the constructor that obeys all rules and sleeps through exactly 2^32 operations: the stale CAS succeeds and puts a client's slot in front of the chain |
| Pipeline.EnqStep | include/Queue.hpp:90-99 | with room for the unread claim, each access of enqueue keeps the ring and the claim intact and is never refused |
| Pipeline.DeqStep | include/Queue.hpp:100-106 | each access of dequeue keeps the ring and hands out published values in order |
| Pipeline.ClaimSurvivesIffNoLap | include/Queue.hpp:104-105 | a claimed, unread slot survives the next write iff it is not one full lap ahead or stores the same message |
| Pipeline.StepKeepsInv | include/TradeReceiver.hpp:163-206 | every access of receiver, sequencer and writer conserves each message and the ring invariants |
| Pipeline.ExecKeepsInv | include/DBManager.hpp:179-226 | so along every run |
| Pipeline.PipelineSafety | include/TradeReceiver.hpp:267-282 | with poolMsgCount <= queueCapacity every message is always in exactly one place, no ignored enqueue answers false, and both rings are first-in first-out |
| Pipeline.LargerPoolLeaks | include/TradeReceiver.hpp:280-280 | a larger pool has a run in which an ignored enqueue loses a message |
| Pipeline.LargerPoolOverwrites | include/Queue.hpp:104-105 | and a run in which a claimed slot is overwritten: the newest message is read first, the oldest is nowhere, and no enqueue was refused |
| Pipeline.SafeIffPoolFits | include/TradeReceiver.hpp:163-206 | every message is in exactly one place in every run iff the pool fits into a ring; so too for refused enqueues |
| Pipeline.FifoIffPoolFits | include/Queue.hpp:90-106 | the first ring is first-in first-out in every run iff the pool fits into a ring |
| Pipeline.ReceiverReturns | include/TradeReceiver.hpp:275-279 | a failed receive gives the message back to the pool |
| Pipeline.SequencerTakes | include/TradeReceiver.hpp:167-171 | the sequencer takes the oldest message of the first ring |
| Pipeline.SequencerDrops | include/TradeReceiver.hpp:179-185 | an old message goes back to the pool |
| Pipeline.SequencerPasses | include/TradeReceiver.hpp:188-189 | an expected message, or one whose recovery is over, is published to the second ring |
| Pipeline.SequencerRecovers | include/TradeReceiver.hpp:106-122 | a recovered message is allocated and published before the one in hand |
| Pipeline.WriterTakes | include/DBManager.hpp:185-206 | the writer adds the oldest message of the second ring to its batch and turns to releasing iff the batch is full |
| Pipeline.WriterReleases | include/DBManager.hpp:205-211 | the writer gives its whole batch back to the pool |
| Pipeline.EmptyPolls | include/DBManager.hpp:187-199 | an empty poll makes the sequencer try again and the writer release the batch it has |
| Pipeline.EmptyPoolStops | include/TradeReceiver.hpp:270-273 | a thread that finds the pool empty stops with what it holds |
| Pipeline.Passage | include/TradeReceiver.hpp:163-206 | with empty rings a message travels from the pool through both rings into the writer's batch |
| GapRecovery.TradeMsgStore.FromFile | include/Utils.hpp:18-20 | lines keep their order and get their position as sequence number |
| GapRecovery.TradeMsgStore.FromDirectory | include/Utils.hpp:21-37 | the store is a time-sorted permutation of the lines, numbered by position |
| GapRecovery.TradeMsgStore.Get | include/Utils.hpp:38-42 | the trade at the index, nothing past the end |
| GapRecovery.SortByTimestamp | include/Utils.hpp:31-32 | sorted by time and a permutation |
| GapRecovery.AvailableExact | include/TradeServer.hpp:146-148 | in a numbered store the answer to a request is every trade numbered from start to end, rising |
| GapRecovery.SnapshotServer.ServeGapRequest | include/TradeServer.hpp:140-149 | sends exactly the part of the request that lies in the store, also for requests it reports as invalid |
| GapRecovery.TradeDataSequencer.SetSequenceNum | include/TradeReceiver.hpp:194-194 | processing resumes after a number, from where an empty stream is exact |
| GapRecovery.TradeDataSequencer.OnRecoveredMsg | include/TradeReceiver.hpp:198-206 | accepts exactly the expected number, and then forwards and advances |
| GapRecovery.TradeDataSequencer.Await | include/TradeReceiver.hpp:104-133 | one event of the receive loop: what it takes, how far the answer is consumed, and whether it breaks or throws |
| GapRecovery.TradeDataSequencer.ReceiveRecoveryMessages | include/TradeReceiver.hpp:88-135 | forwards consecutive numbers only, completes iff all requested messages were accepted; on an honest channel the script alone decides how it ends, and on a reliable one it forwards exactly the answer |
| GapRecovery.ReliableCompletes | include/TradeReceiver.hpp:103-134 | late but whole deliveries always complete the recovery |
| GapRecovery.TradeDataSequencer.Recover | include/TradeReceiver.hpp:75-78 | over a reliable channel forwards exactly the missing slice of the store; with an honest server always a prefix of it, and ends as the script decides |
| GapRecovery.TradeDataSequencer.CloseGap | include/TradeReceiver.hpp:172-178 | an exact stream stays exact however the recovery ends, and reaches the current message iff it completes |
| GapRecovery.TradeDataSequencer.Process | include/TradeReceiver.hpp:166-190 | forwarded count follows nextSequence_, the i-th forwarded number is at least start + i, old messages are dropped, each gap is requested once; on an honest channel message and script decide the outcome, and the stream stays exact iff the recovery is not broken off |
| GapRecovery.TradeDataSequencer.Run | include/TradeReceiver.hpp:163-192 | for every lossy, duplicated, reordered stream on honest channels, downstream is exactly store[base..nextSequence_) iff no round breaks off, the run stops early iff a recovery throws or hangs, and every gap request is answerable in full; with reliable channels always exact |
| GapRecovery.CourseEnds | include/TradeReceiver.hpp:163-192 | a run that goes on ends one above the greatest number processed, and reliable channels let every run go on |
| GapRecovery.BrokenCourse | include/TradeReceiver.hpp:108-113 | one delivery and a closed connection with two messages missing corrupt the stream |
| GapRecovery.BrokenRecovery | include/TradeReceiver.hpp:172-189 | the same end to end: the forwarded stream is not the store |
| GapRecovery.NextAfterIsMax | include/TradeReceiver.hpp:163-192 | nextSequence_ is one more than the greatest number processed |
| GapRecovery.DownstreamNext | include/TradeReceiver.hpp:188-189 | forwarding a stored message keeps the stream exact iff it is the expected one |
| GapRecovery.RecoveredSlice | include/TradeReceiver.hpp:103-123 | consecutive messages from a numbered store are a slice of it |
| OpenAddressing.PutKeepsProbe | include/HashMap.hpp:292-301 | writing at an insertion point, or a tombstone anywhere, leaves no empty slot before an occupied one on its probe |
| OpenAddressing.AbsentAtEmpty | include/HashMap.hpp:303-317 | a probe without a match that meets an empty slot or comes round proves the key absent |
| OpenAddressing.InsertedKeys | include/HashMap.hpp:284-302 | an insertion adds its key and no other, duplicates or not |
| OpenAddressing.OtherCopyIffShadowed | include/HashMap.hpp:290-296 | a second copy of the key exists beside the insertion point iff one lies behind a tombstone |
| OpenAddressing.InsertedModel | include/HashMap.hpp:284-302 | insertion without growth is the map update iff the key is not shadowed |
| OpenAddressing.EraseModel | include/HashMap.hpp:318-335 | a tombstone on the key's slot removes it from the map |
| OpenAddressing.InsertEraseIffNotShadowed | include/HashMap.hpp:284-335 | insert then erase leaves the key absent iff it was not shadowed |
| OpenAddressing.StaleCopyResurfaces | include/HashMap.hpp:284-335 | a run of three insertions and two erasures after which the erased key is still present |
| OpenAddressing.RepresentsIff | include/HashMap.hpp:366-377 | a table stands for a map iff it has no duplicate and a left-to-right scan builds that map |
| OpenAddressing.FreeDistance | include/HashMap.hpp:290-296 | a table that is not full has a free slot on every probe, so the unguarded loop ends |
| OpenAddressing.OpenAddressingHashMap.Locate | include/HashMap.hpp:303-350 | the probe of contains, find and erase succeeds iff some occupied slot holds the key, and finds the first one |
| OpenAddressing.OpenAddressingHashMap.Contains | include/HashMap.hpp:303-317 | true iff the key is present |
| OpenAddressing.OpenAddressingHashMap.Find | include/HashMap.hpp:336-350 | the value the represented map gives the key, null iff absent |
| OpenAddressing.OpenAddressingHashMap.Erase | include/HashMap.hpp:318-335 | succeeds iff present, keeps probe invariant and size, removes the key from the represented map |
| OpenAddressing.OpenAddressingHashMap.Insert | include/HashMap.hpp:284-302 | keeps probe invariant, exact size and load bound; key set grows by the key; map update iff the table grew or the key is not shadowed |
| OpenAddressing.OpenAddressingHashMap.Rehash | include/HashMap.hpp:366-377 | doubles without a nested rehash, keeps the key set, leaves neither tombstones nor duplicates, and builds the map of a left-to-right scan |
| OpenAddressing.OpenAddressingHashMap.Move | include/HashMap.hpp:372-376 | one turn of the copying loop updates the represented map by one slot |
| OpenAddressing.OpenAddressingHashMap.Subscript | include/HashMap.hpp:256-283 | "HashMap is full" is never thrown; the slot returned holds the key; default-insertion is right iff the table grew or the key is not shadowed |
| OpenAddressing.OpenAddressingHashMap.Assign | include/HashMap.hpp:256-283 | map[k] = v through operator[] is the map update iff the table grew or the key is not shadowed |
| OpenAddressing.OverwriteKeepsProbe | include/HashMap.hpp:275-277 | writing a value through the returned reference keeps the probe invariant |
| ChainingMap.TakePartition | include/HashMap.hpp:158-158 | taking a free node into a chain keeps chains and free stack a partition of the pool |
| ChainingMap.ReturnPartition | include/HashMap.hpp:205-212 | returning a chain node to the stack keeps the partition |
| ChainingMap.AppendLinks | include/HashMap.hpp:175-187 | linking a free node behind the last one extends that chain and no other |
| ChainingMap.RemoveLinks | include/HashMap.hpp:206-211 | redirecting bucket or predecessor removes one node from that chain and disturbs no other |
| ChainingMap.AppendIffAbsent | include/HashMap.hpp:170-188 | appending an entry is the map update iff the key is absent |
| ChainingMap.OverwriteUpdates | include/HashMap.hpp:147-150 | writing the entry of a present key is the map update |
| ChainingMap.RemoveErases | include/HashMap.hpp:200-214 | unlinking the first entry of a key removes it from the map |
| ChainingMap.SizeOfMap | include/HashMap.hpp:240-241 | the chains hold as many nodes as the map has keys |
| ChainingMap.AssignIsUpdate | include/HashMap.hpp:143-169 | storing into the entry that operator[] found or created is the map update |
| ChainingMap.FixedSizedChainingHashMap.SizeIsUsedNodes | include/HashMap.hpp:240-241 | map size is pool size minus free nodes |
| ChainingMap.FixedSizedChainingHashMap.constructor | include/HashMap.hpp:131-142 | the empty map: all nodes free, all buckets null |
| ChainingMap.FixedSizedChainingHashMap.Locate | include/HashMap.hpp:143-153 | the walk stops at the first node of the key with its predecessor one behind |
| ChainingMap.FixedSizedChainingHashMap.Contains | include/HashMap.hpp:189-199 | true iff the map has the key |
| ChainingMap.FixedSizedChainingHashMap.Find | include/HashMap.hpp:220-230 | the map's value, null iff absent |
| ChainingMap.FixedSizedChainingHashMap.Insert | include/HashMap.hpp:170-188 | refused iff no node is free; appends an entry; map update iff the key is absent |
| ChainingMap.FixedSizedChainingHashMap.Erase | include/HashMap.hpp:200-219 | succeeds iff present, returns one node to the pool, removes the key from the map |
| ChainingMap.FixedSizedChainingHashMap.Subscript | include/HashMap.hpp:143-169 | null iff the key is absent and no node is free; otherwise the node of the key, with a blank value if new |
| ChainingMap.FixedSizedChainingHashMap.Assign | include/OrderBook.hpp:70-70 | map[k] = v is the map update, refused iff absent and the pool is used up |
| OrderBook.LevelRemove | include/OrderBook.hpp:73-83 | a level's sum of live quantities does not depend on the order of the orders |
| OrderBook.LevelPositive | include/OrderBook.hpp:73-83 | with no negative quantity, a level is positive iff a live order with a positive quantity rests there |
| OrderBook.InsertTotals | include/OrderBook.hpp:70-83 | after insert every level is the sum of the live quantities iff the id was new or its old order empty |
| OrderBook.InsertBest | include/OrderBook.hpp:73-83 | after insert the best indices are right iff the quantity is positive or the price improves nothing |
| OrderBook.UpdateTotals | include/OrderBook.hpp:86-99 | update sets the live quantity to the given one, and afterwards every level is the sum of the live quantities |
| OrderBook.LiveAfter | include/OrderBook.hpp:52-117 | insert, update and cancel change the live orders exactly as asked |
| OrderBook.LiveOrders | include/OrderBook.hpp:52-117 | after every disciplined run an id is live with the side and price of its last insert and the quantity of its last insert or update, or not at all |
| OrderBook.UpdateBest | include/OrderBook.hpp:86-99 | after update the best indices are right iff no empty level beyond the best is revived |
| OrderBook.CancelConsistent | include/OrderBook.hpp:101-117 | cancel keeps totals and best indices right, with both empty sentinels |
| OrderBook.ReusedIdBreaksTotals | include/OrderBook.hpp:70-83 | a concrete reused id leaves a stale total |
| OrderBook.RevivedOnly | include/OrderBook.hpp:172-198 | the only order of a side, reduced to zero and raised again, is always missed by the best bid |
| OrderBook.RevivedLevelMissed | include/OrderBook.hpp:52-99 | such an order in a run of insert, update, update from the empty book |
| OrderBook.BestBidIsMaximum | include/OrderBook.hpp:172-186 | the best bid is the greatest price among live buy orders |
| OrderBook.BestAskIsMinimum | include/OrderBook.hpp:186-198 | the best ask is the least price among live sell orders |
| OrderBook.RunConsistent | include/OrderBook.hpp:52-117 | fresh ids and positive quantities keep the book consistent along every run |
| OrderBook.ReachableBook | include/OrderBook.hpp:41-117 | in every book so reached from the empty one, totals and best prices agree with the live orders |
| OrderBook.ReachableDepth | include/OrderBook.hpp:131-142 | in every book so reached, the depth listing from the best index equals the first count positive levels of a full scan |
| OrderBook.DownwardsExact | include/OrderBook.hpp:139-142 | the full bid scan lists exactly the positive levels, falling |
| OrderBook.UpwardsExact | include/OrderBook.hpp:134-137 | the full ask scan lists exactly the positive levels, rising |
| OrderBook.CollectDown | include/OrderBook.hpp:139-142 | the bid loop of print collects the first count positive levels from its start down |
| OrderBook.CollectUp | include/OrderBook.hpp:134-137 | the ask loop of print collects the first count positive levels from its start up |
| OrderBook.ScanDown | include/OrderBook.hpp:177-183 | the rescan below an emptied best bid finds the next positive level, or 0 |
| OrderBook.ScanUp | include/OrderBook.hpp:189-195 | the rescan above an emptied best ask finds the next positive level, or the last |
| OrderBook.OrderBook.constructor | include/OrderBook.hpp:41-51 | the empty book with sentinels -1 and MaxPriceLevels |
| OrderBook.OrderBook.Insert | include/OrderBook.hpp:52-84 | in place, exactly the value-level insert; refused iff a new id finds the order map full |
| OrderBook.OrderBook.UpdatePriceLevel | include/OrderBook.hpp:172-198 | adds to one level and rescans iff the best level became zero; the other side is untouched |
| OrderBook.OrderBook.Update | include/OrderBook.hpp:86-99 | in place, the order's quantity becomes the given one and the book exactly the value-level update; refused iff the id is unknown |
| OrderBook.OrderBook.Cancel | include/OrderBook.hpp:101-117 | in place, exactly the value-level cancel; refused iff the id is unknown |
| OrderBook.OrderBook.BidDepth | include/OrderBook.hpp:139-142 | started at an exact best index, the first count positive levels of a full scan |
| OrderBook.OrderBook.AskDepth | include/OrderBook.hpp:134-138 | the same for asks, reversed for printing |
| Batching.RunSingle | include/DBManager.hpp:57-75 | every message delivered is committed alone and released once, after its commit call |
| Batching.Flush | include/DBManager.hpp:128-135 | one commit call with the whole batch, then each of its messages released once |
| Batching.Turn | include/DBManager.hpp:185-212 | one turn keeps committed rows plus pending batch equal to the messages delivered; an empty poll leaves nothing pending, a message is committed only in a full batch |
| Batching.RunBatched | include/DBManager.hpp:179-226 | commits the same rows as runSingle, in batches of one to the batch size, less than full only at an empty poll or the stop; releases each message once and after its commit, and lags by less than a batch |
| Vwap.SumsAppend | include/AggTradeMQSender.hpp:82-87 | amounts and quantities add up over concatenated trades |
| Vwap.AverageWithinPrices | include/AggTradeMQSender.hpp:69-69 | with positive quantities a published average lies between the least and greatest price of its bucket |
| Vwap.Conservation | include/AggTradeMQSender.hpp:66-87 | per symbol, the sums over the buckets equal the sums over all trades |
| Vwap.RunsExtend | include/AggTradeMQSender.hpp:49-54 | a trade joins the open bucket iff it is of the same millisecond, and the buckets stay maximal runs |
| Vwap.CollectTicks | include/AggTradeMQSender.hpp:66-79 | one flush publishes every symbol of the bucket exactly once with its average |
| Vwap.AggregatedTradeMQSender.SendMQ | include/AggTradeMQSender.hpp:66-81 | closes the open bucket with its published averages and empties the map |
| Vwap.AggregatedTradeMQSender.AggregateTrade | include/AggTradeMQSender.hpp:82-87 | the map holds the sums of the open bucket with the trade added |
| Vwap.AggregatedTradeMQSender.Receive | include/AggTradeMQSender.hpp:49-58 | keeps: received trades = closed buckets + open bucket, maximal millisecond runs, published averages exact; flushes iff the millisecond changed |
| Vwap.AggregatedTradeMQSender.Run | include/AggTradeMQSender.hpp:40-64 | so over every sequence of polls |
| Vwap.AggregatedTradeMQSender.Stop | include/AggTradeMQSender.hpp:33-39 | afterwards every trade received is in exactly one published bucket |

## Left out

- Memory orderings: all step systems assume sequentially consistent memory.
- Counter wrap-around: queue positions, ticket counters, sequence numbers, quantities and reference counts are unbounded (the pool's 32-bit tag and index are not); `circular_less_than` is the plain comparison there, and the reference count stays below its flag bit.
- The step systems are models on values with one function step per atomic access, not heap objects: aliasing between the queue and its clients is not captured.
- `index & mask` is written as the remainder by the size; the power-of-two requirement of the constructors is therefore not needed and not stated.
- TaggedPool.PoolSafety: holds for runs in which clients free only what they own, threads inside `allocate` plus held slots never exceed the pool, and no thread sleeps through 2^32 pool operations between load and CAS; `PastEndIffOverdrawn`, `CasFindsHeadIff` and `TagWindowIsTight` show that these rules are needed. Freeing a slot one does not own is not modelled further.
- TaggedPool.PastEndIffOverdrawn: assumes that no snapshot can reach an age of 2^32 operations even if all calls in flight complete, and uses that a weak CAS may fail.
- Pipeline.PipelineSafety: pool calls are single steps there (their interleavings are the subject of `TaggedPool`), and exhaustion stops the thread as the receiver's null test intends.
- BlockIndex.ExplicitProducer.FindBlock: reads the index in one step; lookups that race with the producer are proved in `IndexRace.RacingLookup`. Exceptions of element constructors, a failed first allocation and MAX_SUBQUEUE_SIZE are not modelled.
- BlockIndex.ExplicitProducer.Dequeue: claims by comparing head and tail; the optimistic and overcommit counters that stand behind a claim are the subject of `TicketProtocol`.
- IndexRace.RacingLookup: claims are single steps (see `TicketProtocol`), `is_empty` reads all flags of a block at once, and the element's own storage is the subject of `BlockIndex.ExplicitProducer.Take`.
- GapRecovery.TradeDataSequencer.Run: enqueue into the send queue always succeeds, which is what `Pipeline.PipelineSafety` provides; the request is sent whole; `startSeq` and `endSeq` are not truncated to the server's `int` loop variable.
- GapRecovery.SortByTimestamp: `std::sort` is replaced by an insertion sort; only order and permutation are relied on.
- OpenAddressing.OpenAddressingHashMap.Insert: the load factor is exactly 7/10, not the nearest float.
- OpenAddressing.OpenAddressingHashMap.Subscript: returns the slot index instead of a reference; a write through it is modelled only right after the call, by `Assign`.
- ChainingMap.FixedSizedChainingHashMap.constructor: the "power of two" exception is not modelled; any positive bucket count is accepted.
- OrderBook.OrderBook.Insert: the price must map to an index inside the book, as the arrays require; prices reach the book only through that index function, and quantities do not overflow.
- OrderBook.OrderBook.BidDepth: the depth listing gives indices, not printed prices; the mid price is not modelled.
- `OrderBook<true>`: its order pool is never sized, so it has no usable state.
- Batching.RunBatched: the database is the log of commit calls; a commit that throws is swallowed by the source and looks like any other call here.
- Vwap.AggregatedTradeMQSender.Stop: runs after the loop, not beside it; the 128-byte message limit, number formatting and the 8-byte symbol field are not modelled, and prices are exact reals.
- Sockets, epoll, multicast membership, connection retries, clocks and logging are environment: what they deliver is a parameter.
- `CustomLockFreePool`, `ChainingHashMap`, the STL, Boost, abseil and folly wrappers, implicit producers, tokens, bulk enqueue and thread-exit hooks of moodycamel's queue, PostgreSQL, ZeroMQ, the Python, HTML and SQL parts are not part of this model; they would add easy members or cannot be seen.
