# A verified model of the low-latency trading engine

The system is a market-data pipeline. An exchange publishes numbered order events in packets and keeps a history of
them. A handler receives the packets over a lossy network, asks the history for what it missed, restores the order and
pushes the events into a single-producer single-consumer ring. An engine pops them and maintains an order book. This
project models that pipeline, from the hash table inside the book to the whole system, and proves that the parts do
what they are for.

## How the proofs fit together

**The book.** `BookSpec` says what a book is (a map of orders and one queue per price level) and what each operation
does to it. `ProbeIndex`, `LevelLists` and `Representation` describe the real structure: the open-addressed index with
backward-shift deletion, the doubly linked level lists, the free list threaded through the pool. The class
`OrderBooks.OrderBook` keeps the arrays of the source, and every method is proved to return the result and reach the
book that `BookSpec.Apply` gives, error cases included. What is then proved of `BookSpec` (time priority over every
history, conservation of quantity) holds of the real structure. `BookEffects` says exactly when an operation gets each
answer and what each message does to the orders, in terms of its own fields. `NodeBooks` is the node-based book of the
benchmark, proved in the same way, and decides exactly where the two books differ.

**The sequencer.** `Sequencing` sees the reorder window as a map from number to slot and carries a ledger that no step
reads, so that conservation can be stated. `SequenceManagers` is the ring of slots with its loops, proved to refine it.
`Progress`, `GapAccounts`, `History`, `Completeness` and `GapFree` prove what recovery achieves and when the stream
moves, and `Counters` what each counter counts.

**The ring.** `Spsc` interleaves the two threads at the granularity of index loads, slot writes and index stores, with
64-bit indices that wrap and loads that may return old values. Each step refines a `Channels.Channel`, and each answer
is the one the channel gives. `SpscQueues` is the class seen by one caller at a time, and `Uncached` is the benchmark's
ring without cached indices. `Merge` is the repaired topology of the race demonstration, built out of channels,
and `StreamVerifier` is the class that judges its output.

**The whole.** `Venues`, `Publishing` and `Exchanges` are the publishing loop, `Handlers` the packet loop, `Engines`
the dispatch loop. `Pipeline` and `PipelineProgress` put them into one step system whose network may drop, repeat and
reorder packets, for every behaviour of recovery that does not invent messages. `PipelineServed` closes the loop: recovery
is the exchange's own history with its bounded capacity, and the exchange may go on publishing, and the history
forgetting, between two requests for one gap. The end results, `PipelineServed.ReplicationServed` and
`PipelineServed.BooksEqualServed`, ask only that the stream opens with the first message, that each arrival fits the
window, and that the history still retains each missing number when the chunk it lies in is requested.
`Uncrossed` shows that the engine's book is never crossed, whatever is lost. `Divergences` collects the inputs of the
next section.

## Where the code and its comments differ

The model follows the code.

- `include/llte/sequence_manager.hpp:22` promises a gap-free stream. The code gives numbers up in four situations: the
  stream opens late, the window overflows, a request fails, or an answer lacks a message.
  `Divergences.StreamCanHaveGap` is an input where that happens. `GapFree.UnbrokenIff` gives the exact condition on an
  arrival, whatever recovery does, and `GapFree.HarmlessServed` says what it comes to behind the recovery server.
  That the history retains a gap when it is discovered is not enough: `Divergences.RetentionCanLapse`.
- `include/llte/sequence_manager.hpp:44-45` says that a number beyond the expected one triggers recovery. The code asks
  only if the slot of the expected number is empty, so a hole inside one packet goes unnoticed until a later packet.
  `Divergences.PacketCanStall` is an input, and `Progress.PacketStallsIff` gives the exact condition for an increasing
  packet, from any drained state and whatever recovery answers. The exchange never builds a packet with a hole
  (`PipelineProgress.PacketIsRun`).
- `orderbook/order_book.cpp:219-220` says that a price change or a size increase loses priority. In the code a
  modification to the same price and the same size loses it too. `BookSpec.KeepsPlaceIff` says exactly when a
  modification at an unchanged price leaves the queues alone, and `Divergences.EqualSizeLosesPlace` is an input.
- The counter `unrecoverable` of the sequencer can exceed the numbers never delivered: a skipped slot that is filled
  late, or cleared by an overflow, stays counted. `GapAccounts.UnrecoverableIff` says exactly which arrivals make it
  wrong, and `Divergences.UnrecoverableOverstates` is a run in which one does.

## Model

| member | source | states |
|---|---|---|
| `ProbeIndex.Find` | orderbook/order_book.cpp:298-307 | Lookup stops and is exact in both directions: not-found if and only if the key is absent from the map the table stands for, otherwise the cell that holds it. |
| `ProbeIndex.Insert` | orderbook/order_book.cpp:309-315 | Adds exactly one binding, keeps every probe sequence contiguous and raises the load by one. |
| `ProbeIndex.Erase` | orderbook/order_book.cpp:317-339 | Backward-shift deletion removes exactly the given key, keeps every other binding reachable, leaves no tombstone and terminates. |
| `ProbeIndex.NextMovable` | orderbook/order_book.cpp:323-337 | The inner loop finds the first cell after the hole that is free or may move; every cell passed over is used and must stay. |
| `ProbeIndex.ShiftContents` | orderbook/order_book.cpp:332-336 | Moving a key into the hole does not change the map. |
| `ProbeIndex.ShiftContiguous` | orderbook/order_book.cpp:329-336 | If the cyclic test allows the move, the vacated cell is the only gap left in any probe sequence. |
| `ProbeIndex.HoleClosed` | orderbook/order_book.cpp:325-328 | When the scan meets a free cell, no probe sequence crosses the hole, so deletion may stop. |
| `ProbeIndex.FreeCell` | orderbook/order_book.cpp:35-38 | A table that is not full has a free cell, which is why probe loops end. |
| `ProbeIndex.AbsentAt` | orderbook/order_book.cpp:298-307 | Reaching a free cell proves that the key is stored nowhere. |
| `ProbeIndex.FillContiguous` | orderbook/order_book.cpp:309-315 | Storing at the first free cell of a probe sequence breaks no other probe sequence. |
| `LevelLists.ChainPush` | orderbook/order_book.cpp:78-91 | Linking behind the tail gives a well-formed list with the order last and exact count and quantity, and neither aggregate overflows its width. |
| `LevelLists.ChainUnlink` | orderbook/order_book.cpp:93-107 | Joining the neighbours of any position gives the list without that order, with exact aggregates and no underflow. |
| `LevelLists.ChainResize` | orderbook/order_book.cpp:221-225 | Shrinking in place keeps the list and makes the aggregate exact again. |
| `LevelLists.AggregatesFit` | include/llte/order_book.hpp:70-75 | The sum of all 32-bit quantities at a level fits the 64-bit total even with one more order. |
| `Representation.AttachRepresents` | orderbook/order_book.cpp:174-183 | Filling a free slot, queueing and indexing it adds exactly that order to the book and keeps the pool partitioned into free and queued slots. |
| `Representation.DetachRepresents` | orderbook/order_book.cpp:193-197 | Taking an order out of its queue removes exactly that order from the book and returns its slot. |
| `Representation.ResizeRepresents` | orderbook/order_book.cpp:259-260 | Changing the size of a queued slot changes only that order's size in the book. |
| `Representation.LevelShows` | orderbook/order_book.cpp:272-284 | The record of a level equals the number and total size of the orders the book has there. |
| `Representation.OccupiedLevel` | orderbook/order_book.cpp:125-152 | A level's list is empty exactly when no order of the book rests there. |
| `OrderBooks.RoundUpPow2` | orderbook/order_book.cpp:9-14 | The least power of two that is at least 2 and not below the argument. |
| `OrderBooks.OrderBook.constructor` | orderbook/order_book.cpp:18-41 | For every valid configuration and every hash function the new structure is sound and stands for the empty book. |
| `OrderBooks.OrderBook.Clear` | orderbook/order_book.cpp:43-62 | From any contents of the arrays, the structure is sound again and stands for the empty book. |
| `OrderBooks.OrderBook.AcquireSlot` | orderbook/order_book.cpp:64-71 | Takes the first free slot, or reports that there is none, and keeps the free list well formed. |
| `OrderBooks.OrderBook.ReleaseSlot` | orderbook/order_book.cpp:73-76 | Puts the slot in front of the free list and touches nothing else. |
| `OrderBooks.OrderBook.LinkBack` | orderbook/order_book.cpp:78-91 | The queue of the level gains the slot at its end, all other queues are unchanged, and only list links change in the pool. |
| `OrderBooks.OrderBook.Unlink` | orderbook/order_book.cpp:93-111 | The queue of the level loses exactly that slot, no other queue changes, and the cached best levels are right afterwards. |
| `OrderBooks.OrderBook.NoteLevelFilled` | orderbook/order_book.cpp:113-123 | After an order joins a level, the cached best levels are the true ones. |
| `OrderBooks.OrderBook.OnLevelEmptied` | orderbook/order_book.cpp:125-152 | After a level empties, the cached best levels are the true ones. |
| `OrderBooks.OrderBook.NextBidBelow` | orderbook/order_book.cpp:132-139 | The downward walk finds the highest occupied bid level, or none if all are empty. |
| `OrderBooks.OrderBook.NextAskAbove` | orderbook/order_book.cpp:144-150 | The upward walk finds the lowest occupied ask level, or none if all are empty. |
| `OrderBooks.OrderBook.Add` | orderbook/order_book.cpp:154-186 | Result and new book are those of the specification in all six cases, in the source's order of checks; the structure stays sound. |
| `OrderBooks.OrderBook.Cancel` | orderbook/order_book.cpp:188-200 | Same, for removing an order by id. |
| `OrderBooks.OrderBook.Modify` | orderbook/order_book.cpp:202-236 | Same, for a shrink in place and for a move to the back of a queue at a possibly different price. |
| `OrderBooks.OrderBook.Execute` | orderbook/order_book.cpp:238-262 | Same, for a partial fill and for a fill that removes the order. |
| `OrderBooks.OrderBook.BestBid` | orderbook/order_book.cpp:264-266 | The highest price at which a bid rests, or the no-price constant if there is none; the constant means no bid unless the band starts at that very price. |
| `OrderBooks.OrderBook.BestAsk` | orderbook/order_book.cpp:268-270 | The lowest price at which an ask rests, or the no-price constant if there is none; the constant means no ask unless the band starts at that very price. |
| `OrderBooks.OrderBook.QuantityAtPrice` | orderbook/order_book.cpp:272-277 | The sum of the sizes of the orders at that side and price, and 0 outside the band. |
| `OrderBooks.OrderBook.OrderCountAt` | orderbook/order_book.cpp:279-284 | The number of orders in that queue, and 0 outside the band. |
| `OrderBooks.OrderBook.LiveOrderCount` | include/llte/order_book.hpp:52-52 | The number of orders resting in the book. |
| `OrderBooks.OrderBook.Contains` | orderbook/order_book.cpp:286-288 | True if and only if the order rests in the book. |
| `OrderBooks.BestBidExact` | orderbook/order_book.cpp:264-266 | The highest occupied bid level is the price of the best bid, and there is none exactly when no bid rests. |
| `OrderBooks.BestAskExact` | orderbook/order_book.cpp:268-270 | The lowest occupied ask level is the price of the best ask, and there is none exactly when no ask rests. |
| `BookSpec.ApplyConsistent` | orderbook/order_book.cpp:154-262 | Every operation keeps the map of orders and the level queues in agreement: each order once, in the one queue of its side and price. |
| `BookSpec.ApplyOrders` | orderbook/order_book.cpp:154-262 | What an accepted operation does to the orders alone, independent of the queues. |
| `BookEffects.UnknownIff` | orderbook/order_book.cpp:154-262 | The answer is UnknownOrder if and only if the operation adds id 0, or is otherwise valid and cancels, modifies or executes an order that does not rest. |
| `BookEffects.DuplicateIff` | orderbook/order_book.cpp:165-167 | The answer is DuplicateOrder if and only if an otherwise valid add names a resting id. |
| `BookEffects.ExhaustedIff` | orderbook/order_book.cpp:169-172 | The answer is PoolExhausted if and only if an otherwise valid add of a new id meets a full pool. |
| `BookEffects.InvalidIff` | orderbook/order_book.cpp:159-161 | The answer is InvalidQuantity if and only if the size is zero and, for an add, the id is not 0, whatever the price and whether the order rests. |
| `BookEffects.OutOfBandIff` | orderbook/order_book.cpp:162-164 | The answer is PriceOutOfBand if and only if a price outside the band comes with a positive size and, for an add, a non-zero id. |
| `BookEffects.OkIff` | orderbook/order_book.cpp:154-262 | The answer is Ok in exactly the remaining cases, and every other answer leaves the book as it was. |
| `BookEffects.FillKeepsPlaces` | orderbook/order_book.cpp:251-261 | A fill moves nobody: the queues change if and only if it takes the whole order, and then as a cancel does. |
| `BookSpec.QueueAfter` | orderbook/order_book.cpp:219-235 | For every operation and every level: an order sent to the back is last, any other order still at the level keeps its place, no other order moves. |
| `BookSpec.TimePriority` | include/llte/order_book.hpp:12-19 | After any history every queue is strictly ordered by the time its orders were added or last lost their place. |
| `BookSpec.KeepsPlaceIff` | orderbook/order_book.cpp:219-235 | A modification at an unchanged price leaves all queues as they are if and only if it shrinks the order or nobody stands behind it. |
| `Divergences.EqualSizeLosesPlace` | orderbook/order_book.cpp:219-235 | A history in which a modification to the same price and size moves an order behind another. |
| `Volume.ApplyBalance` | orderbook/order_book.cpp:154-262 | Resting size after an operation plus what left equals resting size before plus what entered; a fill never takes more than rested. |
| `Volume.VolumeConserved` | orderbook/order_book.cpp:43-262 | Over every history, size entered equals size resting plus size that left. |
| `Volume.DepthIsResting` | orderbook/order_book.cpp:272-277 | The totals of all levels of both sides add up to the size of all resting orders. |
| `NodeBooks.NodeBook.Add` | benchmarks/book_benchmark.cpp:109-114 | Maps and lists stand for the book with the order queued last. |
| `NodeBooks.NodeBook.Cancel` | benchmarks/book_benchmark.cpp:116-130 | Removes exactly that order and drops a list that becomes empty; an unknown id changes nothing. |
| `NodeBooks.NodeBook.Modify` | benchmarks/book_benchmark.cpp:132-140 | Always re-queues the order behind its level; an unknown id changes nothing, whatever the price and size. |
| `NodeBooks.NodeBook.Execute` | benchmarks/book_benchmark.cpp:142-152 | Shrinks in place or removes; an unknown id or a zero quantity changes nothing. |
| `NodeBooks.AgreesIff` | benchmarks/book_benchmark.cpp:132-140 | On an accepted operation the two books end equal if and only if it is not an in-place shrink of an order that others stand behind. |
| `NodeBooks.NodeRun` | benchmarks/book_benchmark.cpp:105-171 | After every history whose operations the checked book accepts or both books ignore, such as those on dead orders, both books hold the same orders with the same sides, prices and sizes. |
| `NodeBooks.WorkloadHandled` | benchmarks/book_benchmark.cpp:66-103 | Every workload the generator can issue, including amendments of dead orders, is such a history as long as it adds no more orders than the pool has slots. |
| `SequenceManagers.SequenceManager.constructor` | market_data/sequence_manager.cpp:11-14 | The empty ring stands for the empty window. |
| `SequenceManagers.SequenceManager.StoreMessage` | market_data/sequence_manager.cpp:16-24 | The ring write is a write to one number of the window, and a filled slot is never overwritten. |
| `SequenceManagers.SequenceManager.AcceptMessage` | market_data/sequence_manager.cpp:26-60 | The imperative method takes the ring to the state the specification gives, for every message and every recovery behaviour. |
| `SequenceManagers.SequenceManager.ResynchronizeAt` | market_data/sequence_manager.cpp:42-51 | Overflow empties the ring, restarts at the new number and charges everything dropped to the accounts. |
| `SequenceManagers.SequenceManager.Recover` | market_data/sequence_manager.cpp:62-100 | Requests, stores and skips as specified, whatever the answers are. |
| `SequenceManagers.SequenceManager.Request` | market_data/sequence_manager.cpp:66-89 | The chunked request loop, which stops at the first failed request. |
| `SequenceManagers.SequenceManager.StoreReply` | market_data/sequence_manager.cpp:75-87 | Answers outside the window or already held are ignored; the others fill their slots. |
| `SequenceManagers.SequenceManager.Skip` | market_data/sequence_manager.cpp:91-99 | Marks exactly the empty slots of the range and counts each once. |
| `SequenceManagers.SequenceManager.NextDeliverable` | market_data/sequence_manager.cpp:102-122 | Delivers the specified message and state, passes over skipped slots and terminates. |
| `SequenceManagers.RingUpdate` | market_data/sequence_manager.cpp:16-24 | Within the window, indexing modulo the capacity never confuses two numbers. |
| `SequenceManagers.RingAdvance` | market_data/sequence_manager.cpp:107-118 | The slot emptied at the stream position is the right one for the number that enters the window at its far end. |
| `Sequencing.AcceptGood` | market_data/sequence_manager.cpp:26-60 | Any arrival, whatever recovery answers, keeps the window, the accounts and the delivery order. |
| `Sequencing.RecoverRangeGood` | market_data/sequence_manager.cpp:62-100 | Recovery keeps the window, the accounts and the delivery order, whatever is answered. |
| `Sequencing.ResynchronizeGood` | market_data/sequence_manager.cpp:42-51 | An overflow keeps the window, the accounts and the delivery order. |
| `Sequencing.NextGood` | market_data/sequence_manager.cpp:102-122 | The delivered message carries the number just before the new stream position, is appended to the delivery history, and nothing is deliverable after a refusal. |
| `Sequencing.RunGood` | market_data/sequence_manager.cpp:16-122 | In every run: each slot holds its own number, deliveries strictly increase, and accepted plus recovered equals delivered plus duplicates plus held plus discarded. |
| `Sequencing.NothingSilentlyLost` | market_data/sequence_manager.cpp:91-99 | In every run, every number the stream has moved past was delivered or counted as unrecoverable. |
| `Counters.CountersExact` | market_data/sequence_manager.cpp:26-122 | In every run, for every recovery: accepted, duplicates, gaps and overflows are the numbers of arrivals of each kind, missing messages the length of all gaps, requests the chunks asked for, delivered the messages taken. |
| `Counters.AskedExactly` | market_data/sequence_manager.cpp:67-73 | All chunks before the last one asked for are answered, and the loop stops early only at a failed request. |
| `Progress.FirstWins` | market_data/sequence_manager.cpp:16-24 | An arrival is stored unless its number is behind the stream or filled, and no filled slot is overwritten by it or by recovery. |
| `Sequencing.RunFrom` | market_data/sequence_manager.cpp:16-122 | In every run, each message held or delivered was accepted, or was in an answer to a chunk that some arrival requested before the first failed request. |
| `Sequencing.AcceptStream` | market_data/sequence_manager.cpp:26-60 | Accepting delivers nothing and does not move a started stream unless the window overflows. |
| `Progress.DrainGood` | market_data/market_data_handler.cpp:143-161 | The drain loop ends with nothing deliverable and keeps all invariants. |
| `Progress.RecoverRangeCovers` | market_data/sequence_manager.cpp:91-99 | Whatever recovery answers, no slot of the gap stays empty and nothing held is lost. |
| `Progress.NoStall` | market_data/sequence_manager.cpp:91-99 | From a drained state, accepting a message and draining moves the stream past it, even if every request fails. |
| `Progress.PacketNoStall` | market_data/market_data_handler.cpp:139-161 | The same for a packet of consecutive messages. |
| `Progress.PacketStallsIff` | market_data/sequence_manager.cpp:53-59 | From any drained state and whatever recovery answers, the stream passes an increasing packet if and only if every number it overtakes was held, is carried or was answered, or, after an overflow, if it carries every number from there on. |
| `Divergences.PacketCanStall` | market_data/sequence_manager.cpp:53-59 | An input that stalls: messages 1001 and 1003 in one packet, whatever recovery could have supplied. |
| `Divergences.StreamCanHaveGap` | include/llte/sequence_manager.hpp:22-27 | A run that delivers 1001 and 1003 and gives 1002 up: the arrival of 1003 breaks an unbroken stream. |
| `GapFree.UnbrokenIff` | include/llte/sequence_manager.hpp:22-27 | For every behaviour of recovery, a stream without gaps stays so if and only if the arrival opens it at the first number, or fits the window and every number it shows missing is in an answer given before the first failed request. |
| `GapFree.RecoverSkips` | market_data/sequence_manager.cpp:62-100 | Recovery skips exactly the numbers of the gap that were neither held nor answered. |
| `GapFree.MovingAnswers` | exchange/recovery_server.cpp:40-54 | Over all the chunks of a range, a number is answered if and only if the history retains it at the moment its own chunk is served, while the exchange goes on publishing. |
| `GapFree.HarmlessServed` | exchange/recovery_server.cpp:132-145 | Behind the recovery server, an arrival leaves no gap if and only if it fits and the history retains each missing number when the chunk it lies in is requested. |
| `GapFree.OneBatch` | market_data/sequence_manager.cpp:67-68 | For a gap of one batch, retention at its single request decides. |
| `Divergences.RetentionCanLapse` | exchange/recovery_server.cpp:27-54 | An input on which the history retains the whole gap at the arrival and yet loses a number of it before the second chunk is served. |
| `GapFree.LargeHistory` | exchange/exchange_simulator.cpp:72-85 | If the history is as long as everything published by then, only a late opening or a window overflow can cause a gap. |
| `GapAccounts.RunSkipsCovered` | market_data/sequence_manager.cpp:91-99 | In every run, everything from the stream position up to a given-up slot is held, so no gap is seen while there is one. |
| `GapAccounts.AcceptExactIff` | market_data/sequence_manager.cpp:16-24 | Whatever recovery does, the counter is exact after an arrival if and only if it was, the number had not been given up, and no window with given-up slots overflows. |
| `GapAccounts.UnrecoverableIff` | market_data/sequence_manager.cpp:26-60 | Over every run, the counter equals the numbers given up if and only if no arrival named a given-up slot or overflowed a window with one. |
| `Divergences.UnrecoverableOverstates` | market_data/sequence_manager.cpp:16-24 | A run that delivers all three messages and still counts one as unrecoverable. |
| `GapAccounts.GapCloses` | market_data/sequence_manager.cpp:62-100 | Whatever is answered, numbers counted as missing are recovered, given up or were already held, with late fills and fills outside the range counted once more. |
| `GapAccounts.GapClosesExactly` | market_data/sequence_manager.cpp:57-100 | In every reachable state the late-fill term is zero: missing numbers are recovered, given up or were already held, and fills outside the range are extra. |
| `History.HistoryStore.constructor` | exchange/recovery_server.cpp:25-25 | A new store has retained nothing. |
| `History.HistoryStore.Append` | exchange/recovery_server.cpp:27-38 | For every log, each slot holds the last message written to it and the bounds follow the 64-bit eviction rule. |
| `History.HistoryStore.HoldsNewest` | exchange/recovery_server.cpp:27-38 | While numbers are consecutive, the ring holds exactly the newest messages of the whole log, each in its own slot. |
| `History.HistoryStore.Fetch` | exchange/recovery_server.cpp:40-54 | For every log, returns what the slots of the range hold within the bounds, in order, up to the limit; for consecutive numbers these are the first retained messages and nothing that was evicted. |
| `History.ScannedConsecutive` | exchange/recovery_server.cpp:40-54 | While numbers are consecutive, the slots scanned hold exactly the retained messages of the range. |
| `History.RetainedIff` | exchange/recovery_server.cpp:35-37 | A published message is retained if and only if fewer messages than the capacity were published after it. |
| `Completeness.ServedExactly` | exchange/recovery_server.cpp:141-145 | A request of at most one batch is answered with exactly the retained messages of its range. |
| `Completeness.ServedAnswer` | exchange/recovery_server.cpp:137-145 | A request is refused if and only if its range is empty, and otherwise answered with the first retained messages of the range, all of them unless they are a batch of 1024. |
| `Completeness.RequestsCount` | market_data/sequence_manager.cpp:67-70 | The number of requests for a gap is its length divided by the batch size, rounded up. |
| `Completeness.RecoverRangeComplete` | market_data/sequence_manager.cpp:62-100 | After recovery each number of the gap is the message held before, else the retained one, else skipped; numbers outside are untouched. |
| `Completeness.AnswersTogether` | market_data/sequence_manager.cpp:67-70 | The answers to all the chunks of a range, concatenated, are the retained messages of the range, each once and in order. |
| `Handlers.AcceptPacket` | market_data/market_data_handler.cpp:139-141 | Feeds the messages of a packet to the sequencer in order. |
| `Handlers.DrainAll` | market_data/market_data_handler.cpp:143-161 | Takes every deliverable message, in order, and leaves none. |
| `Handlers.HandlePacket` | market_data/market_data_handler.cpp:139-161 | For every packet the sequencer ends drained and what was taken is exactly what the delivery history gained; each event was held before, or is in the packet and not marked as recovered, or was answered by recovery and is; from a drained state, a packet of consecutive messages is passed entirely. |
| `Rings.WrappedSlot` | include/llte/spsc_queue.hpp:73-73 | With a power-of-two capacity, a wrapped 64-bit index finds the same slot as the true count. |
| `Rings.WrappedDistance` | include/llte/spsc_queue.hpp:34-36 | Subtracting wrapped indices gives the true distance. |
| `Spsc.FullTest` | include/llte/spsc_queue.hpp:34-36 | The full test on wrapped words is true exactly when the ring is full as far as the producer knows. |
| `Spsc.WriteApart` | include/llte/spsc_queue.hpp:40-40 | The producer's slot write touches no value still to be popped, even while it is half done. |
| `Spsc.StepInv` | include/llte/spsc_queue.hpp:30-58 | Every step of either thread, whatever its loads return, keeps the ring's invariant. |
| `Spsc.Fifo` | include/llte/spsc_queue.hpp:12-16 | In every interleaving the values popped are a prefix of the values pushed, and the ring never holds more than its capacity. |
| `Spsc.NoRace` | include/llte/spsc_queue.hpp:12-16 | In every interleaving the two threads never touch the same slot at once, what is read was published under an acquired index, and what is overwritten was released under an acquired index. |
| `Spsc.RefinesChannel` | include/llte/spsc_queue.hpp:30-63 | Every step is invisible, or sends into a ring with room, or looks, or takes the oldest value. |
| `Spsc.AnswersAsChannel` | include/llte/spsc_queue.hpp:34-63 | A pop is refused exactly when the reload shows nothing unread, `empty` answers by the same test on its own load, and a push is refused exactly when the reload shows a full ring. |
| `Spsc.CachingIsExact` | include/llte/spsc_queue.hpp:32-54 | With current loads, a push fails exactly when the ring is full and a pop exactly when it is empty. |
| `Uncached.SameAnswers` | benchmarks/queue_benchmark.cpp:122-153 | Over every sequence of whole operations, the ring with cached indices gives the same answers as the ring that loads the other index every time. |
| `SpscQueues.SpscQueue.constructor` | include/llte/spsc_queue.hpp:21-28 | A new ring is an empty queue. |
| `SpscQueues.SpscQueue.TryPush` | include/llte/spsc_queue.hpp:30-45 | Appends the value if there is room; succeeds if and only if there is. |
| `SpscQueues.SpscQueue.TryPop` | include/llte/spsc_queue.hpp:47-58 | Removes and returns the oldest value, or reports an empty queue and changes nothing. |
| `SpscQueues.SpscQueue.Empty` | include/llte/spsc_queue.hpp:60-63 | True if and only if nothing is queued. |
| `SpscQueues.SpscQueue.Size` | include/llte/spsc_queue.hpp:65-68 | The number of queued values, across index wrap-around. |
| `Merge.StepInv` | tools/spsc_race_demo.cpp:163-241 | Every step of any producer, the sequencer or the consumer keeps the invariant of the merge. |
| `Merge.NothingLost` | tools/spsc_race_demo.cpp:163-241 | When all threads have exited, items received plus abandoned pushes equal items to be sent. |
| `Merge.StreamIntact` | tools/spsc_race_demo.cpp:163-241 | With no abandoned push, each producer's items arrive in order without a gap, and all of them once the threads have exited. |
| `StreamVerifier.Verifier.Check` | tools/spsc_race_demo.cpp:76-87 | The counters are the verdict on the items checked so far. |
| `StreamVerifier.VerdictExact` | tools/spsc_race_demo.cpp:76-87 | The verdict reports no damage if and only if every item is genuine and each producer's items run from 0 without a gap. |
| `StreamVerifier.VerdictCounts` | tools/spsc_race_demo.cpp:76-87 | Corrupted is the number of items that are not genuine, out-of-order the number of genuine items that are not the one due from their producer, each counted once. |
| `StreamVerifier.MergeJudgedClean` | tools/spsc_race_demo.cpp:218-241 | Every run of the repaired topology with no abandoned push is judged clean. |
| `Venues.PublishedIsApplied` | exchange/exchange_simulator.cpp:177-227 | Every published event is accepted by the exchange's own book, except a new order that meets a full pool. |
| `Venues.LiveRemove` | exchange/exchange_simulator.cpp:201-202 | Overwriting with the last element and dropping it removes exactly that order from the live list. |
| `Venues.PublishLive` | exchange/exchange_simulator.cpp:177-227 | After every turn the live list and the book hold the same orders. |
| `Venues.PublishGood` | exchange/exchange_simulator.cpp:169-244 | Every turn keeps: the book is the book of the published stream, numbers are consecutive from 1001, packets partition the stream. |
| `Publishing.MessageSays` | exchange/exchange_simulator.cpp:170-219 | Each message has the next number and names a resting order with its side, or a fresh id; new prices lie at the drawn distance from the middle, a cancel carries the order's price and size, a trade half of an order above 10 or all of a smaller one. |
| `Publishing.RunsPublish` | exchange/exchange_simulator.cpp:169-245 | Over every run with a fixed batch: one message per turn, order ids 1, 2, 3, ..., every packet of a turn exactly full, fewer messages pending, and only the final flush shorter. |
| `Publishing.PacketIs` | exchange/exchange_simulator.cpp:234-239 | Packet i is the i-th stretch of a batch of messages of the published stream. |
| `Venues.FinalFlushGood` | exchange/exchange_simulator.cpp:245-245 | After the last flush every published message is in some packet. |
| `Venues.NeverCrossed` | exchange/exchange_simulator.cpp:108-113 | The best bid is always below the middle price and the best ask above it. |
| `Uncrossed.AnyMessages` | exchange/exchange_simulator.cpp:108-113 | The book of any selection of published messages, with any omissions and repetitions, has bids below and asks above the middle price. |
| `Uncrossed.EngineNeverCrossed` | orderbook/order_book_engine.cpp:107-133 | In every run, whatever is lost, the engine's best bid is below the middle price and its best ask above it. |
| `Exchanges.Exchange.constructor` | exchange/exchange_simulator.cpp:78-124 | The exchange opens with an empty book, an empty history and order id 1, and a batch size brought into 1 to 32. |
| `Exchanges.Exchange.PublishNext` | exchange/exchange_simulator.cpp:169-244 | One turn of the loop on the real book, history and live list reaches the specified state, and hands over a packet if and only if the message completes a batch. |
| `Exchanges.Exchange.FlushRest` | exchange/exchange_simulator.cpp:245-245 | The messages left over, fewer than a batch, go out in a last packet. |
| `Engines.ApplyMessage` | orderbook/order_book_engine.cpp:119-133 | The real book answers and moves as the message asks. |
| `BookEffects.MessageEffect` | orderbook/order_book_engine.cpp:119-133 | For every book and message: a cancel removes its order whatever price and size it carries, a trade takes its size or the whole order, a modification keeps the side and sets price and size, an accepted add binds its id, and no other order changes. |
| `BookEffects.AddAnswer` | orderbook/order_book_engine.cpp:120-123 | An add message is accepted if and only if its id is new and not 0, its size positive, its price in the band and a slot free. |
| `Engines.TallyTotal` | orderbook/order_book_engine.cpp:31-40 | Every event is counted exactly once. |
| `Engines.TallyCounts` | orderbook/order_book_engine.cpp:31-40 | Each of the six counters is the number of its own results. |
| `Engines.ResultAt` | orderbook/order_book_engine.cpp:119-133 | Result i is the answer of the book as event i finds it. |
| `Engines.Engine.constructor` | orderbook/order_book_engine.cpp:22-29 | The engine starts with an empty book and zero counters. |
| `Engines.Engine.Dispatch` | orderbook/order_book_engine.cpp:119-133 | The book moves by the event, and exactly the counter of the book's answer grows by one. |
| `Engines.Engine.Consume` | orderbook/order_book_engine.cpp:107-164 | The pop loop leaves the ring empty, the book is that of all events consumed, each counter has grown by the number of its own results among them, and the engine stops exactly if the producer was done. |
| `Pipeline.StepInv` | market_data/market_data_handler.cpp:102-170 | Every step of exchange, network, handler or engine keeps the system invariant, if what recovery answers to an arrival was published. |
| `Pipeline.AlwaysASubstream` | orderbook/order_book_engine.cpp:107-133 | In every run in which recovery answers only with published messages, whatever is lost: the events consumed are published events, strictly increasing, the book is the book of those events, and an exited engine has consumed all that was delivered. |
| `Pipeline.Replication` | orderbook/order_book_engine.cpp:107-133 | For every recovery, if each arrival meets the exact condition of `UnbrokenIff`, the events consumed are a prefix of the published stream and the engine's book is the exchange's book after that prefix. |
| `PipelineProgress.PacketIsRun` | exchange/exchange_simulator.cpp:142-167 | Every packet the exchange builds carries consecutive numbers. |
| `PipelineProgress.NeverStalls` | market_data/market_data_handler.cpp:139-161 | In every run in which recovery answers only with published messages, whenever the handler waits or has finished, the stream has passed everything it ever accepted. |
| `PipelineProgress.BooksEqual` | orderbook/order_book_engine.cpp:107-133 | Under the condition of `Replication`, if the last published message got through, an exited engine's book equals the exchange's book. |
| `PipelineServed.HistoryHonest` | exchange/recovery_server.cpp:122-159 | Asked for published numbers, the recovery server answers only with what was published under them, however much is published meanwhile. |
| `PipelineServed.SubstreamServed` | exchange/recovery_server.cpp:122-159 | With the exchange's moving history behind recovery, and nothing assumed of what it retains: the engine consumes published events in order, its book is theirs, and the handler never stalls. |
| `PipelineServed.ReplicationServed` | orderbook/order_book_engine.cpp:107-133 | With the exchange's moving history behind recovery, as long as each arrival opens the stream properly or fits the window and each missing number is retained when its chunk is requested, the engine's book is the exchange's book after a prefix of the published stream. |
| `PipelineServed.BooksEqualServed` | orderbook/order_book_engine.cpp:107-133 | In such a run, if the last published message got through, an exited engine's book equals the exchange's book. |

## Left out

- Sockets, multicast, the framing of the TCP recovery protocol, shared-memory mapping, signals and CPU pinning: a recovery client is an arbitrary function from ranges to answers, and the network is an arbitrary choice of packets.
- The handler's checks on packet headers: every packet the handler sees in this model is one the exchange built.
- Clocks, latency statistics, CSV output and the timestamps that travel with a feed message; the publication time is a parameter.
- Random draws: the choices of the exchange are parameters, restricted to the ranges it draws from.
- The arithmetic of the hash finalizer and of the demonstration's checksum: both are arbitrary functions, and masking with a power of two minus one is written as modulo.
- Cache-line layout, false sharing, heap-allocation counts and everything the benchmarks measure.
- The two-producer mode of the race demonstration, whose behaviour is undefined by design.
- The C++ memory model: an acquire load may return any value between the last one seen and the current one, and race freedom is proved beside it.
- Liveness under a fair scheduler: a full ring or an abandoned push is a choice of the environment.
- The path on which a signal interrupts a push to a full ring.
- Spsc: the memory order of the relaxed loads is not modelled, because each thread reads its own index.
- Pipeline: accepting one message, with the recovery it causes, is a single step; what the exchange publishes meanwhile enters as the logs from which each request is served, and is published by later steps. The ring is the channel that `Spsc.RefinesChannel` and `Spsc.AnswersAsChannel` show it to be.
- Pipeline.Replication: the condition is stated arrival by arrival and is not necessary for a whole run, because a skipped slot that is filled late can mend a stream.
- Engines.Engine.Consume: no producer pushes between two pops; the exit test against a running producer is in `Pipeline.AlwaysASubstream`.
- Sequencing.AcceptGood: sequence numbers and counters are unbounded, so their 64-bit wrap-around is not modelled.
- Progress.PacketStallsIff: is stated for packets with increasing numbers, whatever their gaps.
- NodeBooks.NodeBook.Add: assumes a new non-zero id and a positive size, which `NodeBooks.WorkloadHandled` shows of everything the benchmark issues, within a band and a number of orders that the model may choose freely.
- NodeBooks.NodeBook.Modify: for a resting order, assumes a positive size and a price within the same band, for the same reason.
- NodeBooks.NodeBook.Cancel: the list positions kept in the benchmark's index are found again by id instead of stored.
- The best-price queries of the benchmark book.
- Venues.PublishGood: assumes that fewer than 2^64 orders are ever created.
