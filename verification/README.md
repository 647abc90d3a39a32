# A verified model of a small exchange and its trading client

The model covers one exchange, with a matching engine per ticker, a market data publisher, a snapshot
synthesizer and an order server, and one trading client, with a market data consumer, order books, an order
manager, risk checks and position keeping. The parts are proved one by one and then together.

| part | files |
|---|---|
| linked order book, shared by exchange and client | `Links`, `LinkedBook`, `BookSpec`, `Ladders`, `LinkedLadders` |
| matching, one book and the whole exchange | `Matching`, `MEOrderBook`, `Exchange`, `MatchingEngine`, `AsAsked`, `Conservation` |
| market data: replica, snapshots, recovery | `Replica`, `Snapshots`, `SnapshotSynthesizer`, `Recovery`, `MarketDataConsumer`, `RecoverySafety`, `Batches`, `CatchingUp`, `MixedSnapshots`, `MarketOrderBook`, `EndToEnd` |
| the whole system | `TidyRuns`, `SharedPool`, `FullSystem` |
| orders of a client: slots, risk, position | `Tracking`, `OrderProtocol`, `ProtocolSafety`, `ProtocolResults`, `OrderPrices`, `RiskManager`, `OrderManager`, `PositionKeeper`, `TradingRuns` |
| foundations: queue, pool, byte streams | `LockFreeQueue`, `MemPool`, `Framing`, `OrderServer`, `WireFormat` |

Objects that the program updates in place are classes here: `LinkedBook` has real nodes, real `prev`/`next`
pointers, a real price index and two memory pools, and its invariant ties them to ghost sequences of levels and
queues. Each such class is proved against a function of its abstract value, and the theorems over whole runs are
about those functions. What such a function has to yield is stated a second time in other terms: what a request asks
for, what a quote adds up to, what a move has to send, what a position is worth.

Concurrent and distributed parts are step systems: the ring queue under every
interleaving, the consumer under every loss, repetition and reordering on both channels (but for one event,
below), the client and the exchange under every order of requests in flight.

The main results are `FullSystem.RequestsToClientLists` (requests in, the client's linked lists out, nothing assumed
of a heap), `FullSystem.LossesMadeGood` (the same with nothing assumed of the consumer, when every loss is made
good), `MatchingEngines.MatchingEngine.Run` (linked books refine sets of orders over any run in range),
`LinkedBooks.LinkedBook.NewOrder` (exactly when an order fits the linked book), `Matching.PriceTimePriority`,
`Matching.AddAsAsked` and `AsAsked.RunAsAsked` (orders rest and fill as they were asked for),
`Conservation.OrdersConserve`, `RecoverySafety.RecoveryIsSafe`, `CatchingUp.CatchesUp`, `MixedSnapshots.SplicedExactly`,
`ProtocolResults.OneOrderPerSlot`, `ProtocolResults.PositionAlwaysBounded`, `ProtocolResults.DrainedSlots`,
`OrderPrices.MovesTakeEffect`, `TradingRuns.Trade` (the same bounds on the client's objects), `PositionKeeping.PositionInfo.AddFill`,
`OrderServers.GatewaysToServer` and `OrderServers.ServerToGateways`, `SharedPool.PoolLastsExactly`,
`LockFreeQueue.FirstInFirstOutExactly` and `LockFreeQueue.AssertSafeExactly`.

`Conservation.OrdersConserve`, `Conservation.TradesBalance`, `ProtocolResults.OneOrderPerSlot` and
`ProtocolResults.PositionAlwaysBounded` are about runs of the exchange on sets of orders.
`MatchingEngines.MatchingEngine.Run` carries the first two to the linked books for runs in which every request is in
range (`AllInRange`), `TradingRuns.TradeOnBooks` the others to linked books and client objects.

## Reading the source

Several source files do not compile as they stand. The model takes them as follows.

- `exchange/matcher/me_order_book.cpp:106-109` is a leftover inside `add` (an undeclared name, repeated sends):
  `add` ends after line 105. `cancel` is defined twice; the model is lines 143-169.
- `trading/strategy/order_manager.h:53-58,67-75`: the branches are meant to be guarded by the `if` above them. A
  cancel goes out only when the price differs, a new order only when risk allows it.
- `utils/types.h:92-94` returns an unsigned value; `SideToValue` is +1, -1 and 0.
- `utils/mem_pool.h:19-30` is modelled as written, and besides with the wrap-around inside the loop. The pools of the
  linked books and of the synthesizer have the wrap inside the loop: as written, `MemPools.MemPool.Allocate` says
  when they stop.
- `trading/strategy/market_order_book.cpp:50-69` (CLEAR) is modelled as written in `LinkedBook.Clear`; `Replay` adds
  the missing reset of the price index, which `LinkedBook.ResetPriceIndex` shows to be all that is missing.
- Fields without initialiser (`open_vwap_`, the pointer tables) start at zero and null. The fields of the risk
  configuration are those set in `trading/trading_main.cpp:43-46`.
- The slot state INVALID of an order that was never used is called `UNUSED`.

## Where the code falls short

These are theorems with their exact condition, or a run that shows the failure.

- Prices equal modulo 256 share an index slot: `LinkedBooks.LinkedBook.AddOrder`, `LinkedBooks.LinkedBook.NewOrder` and
  `Ladders.AddByIndexExactly` say when that breaks the book, `LinkedLadders.ClashOnTheBook` gives two orders that do.
- An assertion stops the program when the last block of a pool is taken, so a book serves 255 price levels and one
  order less than its order pool has blocks: `LinkedBooks.LinkedBook.NewOrder`.
- The synthesizer allocates the orders of all tickers from one pool that is as large as that of a single book. With every
  book in range it can run out: `SharedPool.PoolTooSmall`. `SnapshotSynthesizers.SnapshotSynthesizer.Consume` and
  `SharedPool.PoolLastsExactly` say exactly when.
- A client order id reused while its order rests takes that order's entry in the order index:
  `LinkedBooks.LinkedBook.AddOrder` and `MEOrderBooks.MEOrderBook.Add` say exactly when that breaks the book.
- CLEAR on a non-empty client book leaves the price index stale: `LinkedBooks.LinkedBook.Clear`.
- The BBO is left stale by the first ADD to an empty side and by CLEAR: `MarketOrderBooks.BBOExactly`.
- Recovery accepts messages of two snapshots as one: `MixedSnapshots.SplicedExactly` and
  `MixedSnapshots.SpliceEndsRecovery` say when the books are wrong, at any point of a client's life and with any queued
  incrementals; `MixedSnapshots.MixedEndsRecovery` does so for mixtures
  of any number of snapshots, and `MixedSnapshots.MixedSnapshotExample` is a run.
- An order for quantity 0 occupies its slot for ever: `ProtocolResults.DrainedSlots`, `ProtocolResults.ZeroExample`.
- Nothing checks that the ring queue is not full: `LockFreeQueue.FirstInFirstOutExactly`, `LockFreeQueue.RereadExactly`.
- A consumer that tests only the pointer of the ring queue can trip its assertion: `LockFreeQueue.AssertSafeExactly`.
- The pool as written serves size - 1 allocations in its life: `MemPools.MemPool.Allocate`.

## Hypotheses

Nothing in the code checks these; the theorems name them where they need them.

- After each request its book has one price per slot of the price index and leaves a block free in the pool of
  ME_MAX_PRICE_LEVELS levels (`exchange/matcher/me_order_book.cpp:6`) and in that of ME_MAX_ORDER_IDS orders (`Tidy`, part
  of `InRange`). For every single request this is exactly what keeps the linked book sound
  (`MatchingEngines.MatchingEngine.ProcessClientRequest`); for the client's books it follows (`TidyRuns.RunStaysTidy`).
- At any time fewer orders rest in all books together than the synthesizer's pool has blocks (`SharedPool.RestingFits`);
  only `FullSystem.RequestsToClientLists` and `FullSystem.LossesMadeGood` need this, and it is exact for the synthesizer.
- A client does not reuse the id of a live order (`FreshKey`), in theorems about runs; for a single request
  `MatchingEngines.MatchingEngine.ProcessClientRequest` says what happens otherwise. For a client that uses the order
  manager it is proved.
- Order ids, client ids and tickers are inside the tables (`InRange`, `InCapacity`). For the synthesizer's tables this
  follows from `InCapacity` (`FullSystem.FeedFitsTables`).
- No message j > 0 of a snapshot comes right after message j - 1 of another one whose beginning is queued and says
  something else (`RecoverySafety.CanArrive`). Apart from that the snapshot channel may lose, repeat and reorder.
- `maxPosition + maxOrderSize` fits a 32-bit integer (`CfgFits`).
- Unread entries of a ring queue stay below its capacity (`Config.limit`); for first in, first out this is exact.
- Every message sent has the codec's size and decoding undoes encoding it (`Proper`). For the packed structs this is
  proved of messages whose fields are inside their types (`WireFormat.RequestsAreProper`,
  `WireFormat.ResponsesAreProper`). A TCP send is complete.

## Model

| member | source | states |
|---|---|---|
| `Links.LinkFifo` | exchange/matcher/me_order_book.h:150-155 | linking an order between two neighbours of a closed FIFO ring gives the ring of the sequence with the order inserted at that position |
| `Links.UnlinkFifo` | exchange/matcher/me_order_book.h:165-172 | unlinking an order of a ring of two or more gives the ring of the sequence without it |
| `Links.LinkLevel` | trading/strategy/market_order_book.h:129-142 | the same for the doubly linked ring of price levels |
| `Links.UnlinkLevel` | trading/strategy/market_order_book.h:161-170 | the same for taking a price level out |
| `LinkedBooks.LinkedBook.SeekTarget` | trading/strategy/market_order_book.h:115-127 | the target search ends, and leaves the target at the one sorted position of the new price, or reports that the new level goes behind the worst one |
| `LinkedBooks.LinkedBook.PromoteBest` | trading/strategy/market_order_book.h:144-151 | the patch-up of `target->next_entry_` writes back the value it reads; only the best pointer changes |
| `LinkedBooks.LinkedBook.LinkNewLevel` | trading/strategy/market_order_book.h:129-151 | the level is linked at the position found, and the best pointer moves exactly when the new price is better |
| `LinkedBooks.LinkedBook.AddOrdersAtPrice` | exchange/matcher/me_order_book.h:72-120 | the side stays a closed ring, strictly sorted best to worst and entered at its best level; the other side is untouched; one price-index slot changes |
| `LinkedBooks.LinkedBook.UnlinkOldLevel` | exchange/matcher/me_order_book.h:126-134 | taking out a level empties the side when it was the only one and moves the best pointer exactly when it was the best |
| `LinkedBooks.LinkedBook.RemoveOrdersAtPrice` | exchange/matcher/me_order_book.h:122-135 | the side without the level is still a sorted closed ring and the slot of its price is empty |
| `LinkedBooks.LinkedBook.AddOrder` | exchange/matcher/me_order_book.h:139-158 | as written, to whatever queue the index yields: the level pool's assertion holds exactly when the slot is in use or a level block stays free, and then the whole heap invariant (rings, sortedness, rising ids and priorities, both indexes and both pools equal to the lists) survives exactly when the order goes last at its own price, no other price uses the slot and no live order has its key |
| `LinkedBooks.LinkedBook.NewOrder` | exchange/matcher/me_order_book.cpp:95-101 | allocation and `addOrder` together: assertions hold and invariant survives if and only if the book with the new order has one price per index slot and leaves a block free in both pools, and the order comes last at its price and under a key of its own |
| `LinkedBooks.LinkedBook.BookAfter` | exchange/matcher/me_order_book.h:52-58 | slot and block conditions on the heap are the ones on the set of orders: orders in use are live orders, levels in use are distinct prices |
| `LinkedBooks.LinkedBook.RemoveOrder` | exchange/matcher/me_order_book.h:160-176 | the whole heap invariant survives, pools included, and exactly the given order leaves the live orders, with its level when it was the last there |
| `LinkedBooks.LinkedBook.GiveBack` | exchange/matcher/me_order_book.h:136-175 | the assertions of both deallocations hold, and the blocks given back leave blocks in use = live orders and listed levels |
| `LinkedBooks.LinkedBook.SetQty` | exchange/matcher/me_order_book.cpp:19-21 | a quantity changed in place touches no link and no other order |
| `LinkedBooks.LinkedBook.YoungestAt` | exchange/matcher/me_order_book.h:60-67 | the tail of the queue found through the price index is the youngest order at the one price that uses the slot, whatever price was asked for |
| `LinkedBooks.LinkedBook.FirstIsBest` | exchange/matcher/me_order_book.cpp:50-71 | the head of the queue of the best level is the first order of its side in price-time order, and an empty list means an empty side |
| `LinkedBooks.LinkedBook.KeyOf` | exchange/matcher/me_order_book.cpp:147-151 | the order index finds an order by key exactly when one with that key is live, and then that one |
| `LinkedBooks.LinkedBook.Clear` | trading/strategy/market_order_book.cpp:50-69 | CLEAR as written, with its three loops over orders and levels, gives every block back and empties lists and order index; the heap invariant holds afterwards if and only if the book held no order, because the price index keeps its entries |
| `LinkedBooks.LinkedBook.ReleaseLevels` | trading/strategy/market_order_book.cpp:57-61 | the walk along `next_entry_` gives back the block of every level of the side once, the best level last |
| `LinkedBooks.LinkedBook.ResetPriceIndex` | trading/strategy/market_order_book.cpp:50-69 | the step CLEAR omits restores the whole invariant |
| `LinkedBooks.ShapedNodes` | exchange/matcher/me_order_book.h:139-176 | the nodes in the queues are exactly the live orders, and no order stands in two queues |
| `LinkedBooks.SortedWith` | trading/strategy/market_order_book.h:115-151 | inserting a price between its neighbours keeps the side strictly sorted |
| `BookSpec.NextPriorityIsLast` | exchange/matcher/me_order_book.h:60-67 | the next priority at a price is above every priority there |
| `Matching.NextPriorityExactly` | exchange/matcher/me_order_book.h:60-67 | the next priority is 1 at a new price and otherwise one above the highest priority there |
| `Matching.MatchAllLeaves` | exchange/matcher/me_order_book.cpp:46-77 | matching leaves a well-formed book that differs by reduced or removed crossing opposite orders only, and stops with quantity left only when no opposite order crosses |
| `Matching.PriceTimePriority` | exchange/matcher/me_order_book.cpp:46-77 | an order trades only after every order ahead of it, by price and then by age, has been filled completely |
| `Matching.FillsAtRestingPrices` | exchange/matcher/me_order_book.cpp:22-28 | every fill has a positive quantity and the price of a resting opposite order, within the limit of the incoming order |
| `Matching.FillsComeInPairs` | exchange/matcher/me_order_book.cpp:13-44 | every field of every message of a matching run: each fill trades one quantity at the price of a resting order and fills one of the two completely; both parties are told what each has left, TRADE says side, price and quantity, and the resting order gets a CANCEL with the quantity it had or a MODIFY with the rest and its priority |
| `Matching.AddKeepsGood` | exchange/matcher/me_order_book.cpp:79-105 | after every order the book is uncrossed again and queues are in arrival order; keys stay unique, and with them the invariant, exactly when the remainder rests under a key that no other order has |
| `Matching.CancelKeepsGood` | exchange/matcher/me_order_book.cpp:143-169 | a cancel keeps the same invariant |
| `Matching.RestIsSafe` | exchange/matcher/me_order_book.cpp:92-104 | a remainder rests on a price that no order of the other side uses, under a new id, and under a new key if it was new before matching |
| `Matching.AddAsAsked` | exchange/matcher/me_order_book.cpp:79-105 | an order in the terms of its request: accepted as asked, filled only at prices that its price agrees to and only against orders ahead, by price and age; what is left rests on its side at its price with at most its quantity, behind the others there, and then no order is left that it agrees to trade with |
| `AsAsked.ServeAsAsked` | exchange/matcher/matching_engine.h:23-56 | the same for every request the exchange serves, with cancels: exactly the order asked for goes, told with its side, price and quantity left, and without one the cancel is refused |
| `AsAsked.EachAsAsked` | exchange/matcher/matching_engine.h:77-95 | in every run each request is served like this, by the book of its ticker alone |
| `AsAsked.RunAsAsked` | exchange/matcher/matching_engine.h:23-95 | in every run every resting order and every response goes back to a request with its client, order id, side and price (fills at prices it agrees to, quantities within it), and every request is answered |
| `MEOrderBooks.MEOrderBook.Match` | exchange/matcher/me_order_book.cpp:13-44 | one fill on the linked book is the specified fill: book, quantity left, responses and updates |
| `MEOrderBooks.MEOrderBook.HeadIsNext` | exchange/matcher/me_order_book.cpp:49-75 | the head of the best opposite queue is the order price-time priority asks for, and the loop goes on exactly when it crosses |
| `MEOrderBooks.MEOrderBook.CheckForMatch` | exchange/matcher/me_order_book.cpp:46-77 | the two loops terminate and compute exactly the specified matching on the heap, messages included |
| `MEOrderBooks.MEOrderBook.GetNextPriority` | exchange/matcher/me_order_book.h:60-67 | the priority read off the list tail is the next priority at the price whose queue the slot holds, which is the asked price unless another price uses its slot |
| `MEOrderBooks.MEOrderBook.Add` | exchange/matcher/me_order_book.cpp:79-105 | no assertion fails and the heap invariant survives if and only if the specified book after it has one price per slot, free blocks and unique keys; then book, responses and updates are the specified ones, of which `Matching.AddAsAsked` says what was asked for |
| `MEOrderBooks.MEOrderBook.Cancel` | exchange/matcher/me_order_book.cpp:143-169 | `cancel` on linked lists is the specified one, rejected requests included |
| `MatchingEngines.MatchingEngine.ProcessClientRequest` | exchange/matcher/matching_engine.h:23-56 | any request of a known client is served as specified and the whole engine stays sound if and only if it is in range, reused live order ids included; the seven other heaps stay as they are in any case |
| `MatchingEngines.MatchingEngine.Run` | exchange/matcher/matching_engine.h:77-95 | after any requests in range the eight linked books and both queues are those of the exchange on sets of orders, and every resting order and every response is what some request asked for |
| `Exchange.Process` | exchange/matcher/matching_engine.h:23-56 | serving an admissible request keeps every engine sound, so every book is uncrossed between requests |
| `Exchange.UpdatesReplicateBooks` | exchange/matcher/matching_engine.h:58-75 | after any requests, the updates sent so far all apply from empty books and rebuild the current book of every ticker |
| `Replica.MatchAllReplicates` | exchange/matcher/me_order_book.cpp:30-43 | TRADE, MODIFY and CANCEL of a matching run turn the view of the book before into the view of the book after |
| `Replica.AddReplicates` | exchange/matcher/me_order_book.cpp:79-105 | the updates of one `add` take the view of the book before to the view of the book after, each fitting where it arrives |
| `Replica.CancelReplicates` | exchange/matcher/me_order_book.cpp:143-169 | the update of one `cancel` does the same |
| `Conservation.OrdersConserve` | exchange/matcher/me_order_book.cpp:13-169 | over any run of the exchange on sets of orders, for every order: accepted quantity = executed + cancelled + still resting |
| `Conservation.TradesBalance` | exchange/matcher/me_order_book.cpp:13-44 | over any run of the exchange on sets of orders, in every ticker: executed buys = executed sells = quantity published as traded |
| `Conservation.ServeConserves` | exchange/matcher/me_order_book.cpp:79-169 | one request moves quantity between an order's size, its executions, its cancel and the book and loses none |
| `Ladders.LadderUnique` | exchange/matcher/me_order_book.h:33-46 | levels and queues are determined by the live orders: two ladders of the same orders are equal, whatever their history |
| `Ladders.AddByIndexExactly` | exchange/matcher/me_order_book.h:52-58 | adding through the price index, which maps prices equal modulo 256 to one slot, keeps both ladders proper if and only if the level using the slot is the order's own |
| `LinkedLadders.AddOrderByIndex` | exchange/matcher/me_order_book.h:139-158 | the linked `addOrder`, read as ladders, is the addition through the price index, and its invariant survives exactly when no other price uses the slot |
| `LinkedLadders.ClashOnTheBook` | exchange/matcher/me_order_book.h:52-58 | bids at 100 and 356 added to a fresh linked book: every assertion holds and the invariant is broken |
| `LinkedLadders.LadderIsProper` | exchange/matcher/me_order_book.h:72-176 | the pointer structure spells the ladder of the live orders: sorted levels, arrival-ordered queues, every live order and no other |
| `LinkedLadders.SameLists` | trading/strategy/market_order_book.h:106-218 | when the client holds the view of the exchange's orders, both pointer structures have the same levels in the same order with the same queues |
| `LinkedLadders.NeverCrossed` | exchange/matcher/me_order_book.cpp:46-77 | with both sides present, the price at the best-bid pointer is below the price at the best-ask pointer |
| `LinkedLadders.StaysSorted` | exchange/matcher/me_order_book.cpp:204-238 | the FATAL of the sortedness check fires exactly when the best price is not past the initial bound, never between levels |
| `MarketOrderBooks.MarketOrderBook.ApplyUpdate` | trading/strategy/market_order_book.cpp:24-74 | each update whose id resolves changes the linked client book as it changes the copy; assertions hold and the heap invariant survives if and only if an ADD comes last at its price, keeps slots apart and blocks free, and a CLEAR finds the book empty |
| `MarketOrderBooks.MarketOrderBook.OnMarketUpdate` | trading/strategy/market_order_book.cpp:20-85 | the same, and when the update fits the copy a correct BBO stays correct if and only if no side is left stale |
| `MarketOrderBooks.MarketOrderBook.UpdateBBO` | trading/strategy/market_order_book.h:27-53 | a refreshed side quotes the top of its ladder, or the invalid markers when empty, and the other side is kept; `MarketOrderBooks.QuotesIs` says what that is in terms of the orders |
| `MarketOrderBooks.MarketOrderBook.QueueQty` | trading/strategy/market_order_book.h:31-33 | the ring walk adds every order of the queue once, in 32 bits; with `MarketOrderBooks.QueueSum` that is the sum over all live orders of the side and price |
| `MarketOrderBooks.QuotesIs` | trading/strategy/market_order_book.h:27-53 | the top of a ladder is quoted exactly as the orders say: the best price of the side, and modulo 2^32 the sum of all quantities at that price, or the invalid markers when the side is empty |
| `MarketOrderBooks.QueueSum` | trading/strategy/market_order_book.h:31-33 | the quantities of a queue add up to the sum over all orders of its side and price, counted without any list |
| `MarketOrderBooks.ModifyMovesQuote` | trading/strategy/market_order_book.cpp:33-37 | a MODIFY at the quoted price keeps the price and moves the quoted quantity by the difference, modulo 2^32 |
| `MarketOrderBooks.SideExactly` | trading/strategy/market_order_book.cpp:21-22 | a side refreshed only when touched is right afterwards exactly unless it got its first order or was cleared |
| `MarketOrderBooks.BBOExactly` | trading/strategy/market_order_book.cpp:20-85 | the same for both sides together |
| `MarketOrderBooks.UntouchedTop` | trading/strategy/market_order_book.cpp:21-22 | an update whose price does not reach the top leaves the top level and its quantity alone |
| `MarketOrderBooks.MarketOrderBook.Replay` | trading/strategy/trade_engine.cpp:87-97 | the trade engine's loop over a stream whose books stay tidy leaves the linked book holding what the stream says, with the index reset added to CLEAR |
| `SnapshotSynthesizers.NotedAt` | exchange/market_data/snapshot_synthesizer.cpp:28-71 | an update changes one slot: an ADD fills it, a CANCEL empties it, a MODIFY writes quantity and price, a TRADE does nothing |
| `SnapshotSynthesizers.AssertedAt` | exchange/market_data/snapshot_synthesizer.cpp:28-71 | the assertions hold exactly when an ADD finds its slot empty and a MODIFY or CANCEL finds an order of its id and side |
| `SnapshotSynthesizers.SnapshotSynthesizer.AddToSnapshot` | exchange/market_data/snapshot_synthesizer.cpp:28-71 | on the table of pointers into the one pool: all assertions hold exactly when the stored orders allow the update, an ADD leaves a block free, counting the orders of all tickers, and the number is the next; then every stored order has a block of its own and record and last number move on |
| `SnapshotSynthesizers.SnapshotSynthesizer.Consume` | exchange/market_data/snapshot_synthesizer.cpp:114-121 | on the stream of engine and publisher all assertions hold if and only if the pool lasts, that is fewer orders than blocks are stored after every update; then the record follows the stream |
| `SnapshotSynthesizers.SnapshotSynthesizer.PublishSnapshot` | exchange/market_data/snapshot_synthesizer.cpp:73-108 | the nested loops send the whole snapshot of what is stored, numbered 0, 1, 2 and so on |
| `SnapshotSynthesizers.MarketDataPublisher.Publish` | exchange/market_data/market_data_publisher.cpp:17-38 | updates go out and to the synthesizer under consecutive numbers |
| `SnapshotSynthesizers.PublishThenSnapshot` | exchange/market_data/market_data_publisher.cpp:15-41 | publisher and synthesizer together number the stream from 1 and, exactly as long as the pool lasts, snapshot its state after the last update |
| `Snapshots.SynthesizerAgrees` | exchange/market_data/snapshot_synthesizer.cpp:28-71 | on every stream the engine can produce no assertion about the stored orders fails, and the record is exactly the live orders with current price and quantity |
| `Snapshots.AddsReplay` | exchange/market_data/snapshot_synthesizer.cpp:88-99 | adding the stored orders by id rebuilds one book: at every price id order is arrival order |
| `Snapshots.SnapshotPlusSuffix` | exchange/market_data/snapshot_synthesizer.cpp:73-108 | for all n, a snapshot after n updates replayed over any books, then the updates after n, gives the books of all updates, every update fitting on the way |
| `Snapshots.BodyReplay` | exchange/market_data/snapshot_synthesizer.cpp:80-99 | replaying a snapshot body replaces whatever books were there by the recorded ones, ticker by ticker |
| `MarketDataConsumers.MarketDataConsumer.CheckSnapshotSync` | trading/market_data/market_data_consumer.cpp:119-218 | the check over the two ordered maps is the specified function of the state |
| `MarketDataConsumers.MarketDataConsumer.CollectSnapshot` | trading/market_data/market_data_consumer.cpp:133-152 | the pass over the queued snapshot succeeds exactly on keys 0, 1, 2 and so on, and collects what lies between the markers |
| `MarketDataConsumers.MarketDataConsumer.CollectIncrementals` | trading/market_data/market_data_consumer.cpp:167-192 | the pass over the queued incrementals skips old ones, takes consecutive ones and stops at a gap |
| `MarketDataConsumers.MarketDataConsumer.QueueMessage` | trading/market_data/market_data_consumer.cpp:100-116 | a repeated snapshot number restarts the queued snapshot, then the check runs |
| `MarketDataConsumers.MarketDataConsumer.RecvCallback` | trading/market_data/market_data_consumer.cpp:49-97 | a batch is handled message by message; outside recovery a snapshot batch is dropped, and an incremental batch starts recovery exactly when its numbers do not count on from the one expected next, otherwise all of it is handed on in order |
| `Recovery.EntersExactly` | trading/market_data/market_data_consumer.cpp:70-92 | outside recovery an incremental is handed on when it has the number expected next, and any other starts recovery with it as the one message queued |
| `Recovery.InOrderExactly` | trading/market_data/market_data_consumer.cpp:67-93 | a batch of incrementals leaves the consumer outside recovery if and only if its numbers count on from the one expected next, and then exactly its updates are handed on, in order |
| `Recovery.StreamHandedOn` | trading/market_data/market_data_consumer.cpp:49-97 | a stream without a gap, in whatever batches and with whatever snapshots between, is handed on whole and in order and never starts recovery |
| `Recovery.Ascending` | trading/market_data/market_data_consumer.cpp:138-172 | the keys of an ordered map, each once, rising |
| `RecoverySafety.FollowCompletes` | trading/market_data/market_data_consumer.cpp:167-192 | the pass over the incrementals completes exactly when no number above the snapshot is missing below a queued one |
| `RecoverySafety.SyncExactly` | trading/market_data/market_data_consumer.cpp:119-218 | the check on any two queues, genuine or not: recovery ends exactly when the snapshot is numbered from 0 without a gap between its two markers and the incrementals after it have no gap; otherwise a snapshot that is no proper beginning is dropped and nothing else happens |
| `RecoverySafety.WholeSnapshot` | trading/market_data/market_data_consumer.cpp:119-218 | with one whole snapshot queued, recovery ends exactly when the later incrementals have no gap, and hands on the snapshot body and the updates after it |
| `RecoverySafety.CompletesExactly` | trading/market_data/market_data_consumer.cpp:100-218 | from a safe state in recovery a message ends recovery if and only if it completes one snapshot with gap-free later incrementals; until then nothing is handed on |
| `RecoverySafety.SnapshotStep` | trading/market_data/market_data_consumer.cpp:100-218 | any snapshot message, lost before, repeated or out of order, keeps the consumer safe, unless it continues the queued beginning of another snapshot that says something else |
| `RecoverySafety.IncrementalStep` | trading/market_data/market_data_consumer.cpp:64-97 | an incremental in any order, lost before or repeated, keeps the consumer safe |
| `RecoverySafety.RecoveryIsSafe` | trading/market_data/market_data_consumer.cpp:49-218 | in every run with lost, repeated and reordered messages on both channels, but for such a splice: what was handed on is the exchange's books as of the number expected when the consumer was last outside recovery, and while in recovery it stays there |
| `MixedSnapshots.SplicedExactly` | trading/market_data/market_data_consumer.cpp:119-166 | for all two snapshots, every cut and whatever books there were before: the beginning of one followed by the end of the other, without later incrementals, gives the books of the second if and only if both say the same up to the cut |
| `MixedSnapshots.SpliceEndsRecovery` | trading/market_data/market_data_consumer.cpp:100-218 | at whatever point of its life the consumer takes such a splice for complete exactly when the queued incrementals after it have no gap; then the books are right if and only if these incrementals make good every order on which the splice differs, and without any if and only if the two beginnings agree |
| `MixedSnapshots.MixedEndsRecovery` | trading/market_data/market_data_consumer.cpp:100-218 | the same for any queue the consumer can have, mixed from any number of snapshots: recovery ends exactly when the later queued incrementals have no gap, and the books are right if and only if these make good every order on which the queue differs from the last snapshot |
| `MixedSnapshots.SaysRightExactly` | trading/market_data/market_data_consumer.cpp:133-152 | a queue of CLEARs and ADDs gives the wanted books, over any books, if and only if of every order the last message that decides about it, its ADD or a CLEAR of its ticker, says what these books hold |
| `MixedSnapshots.AllHealedExactly` | trading/strategy/market_order_book.cpp:24-74 | a stream makes two states of the books equal if and only if every order on which they differ is later added or cancelled, or modified when it differs in quantity only |
| `MixedSnapshots.MixedSnapshotExample` | trading/market_data/market_data_consumer.cpp:119-166 | a run of the exchange's feed in which the books handed on are wrong |
| `MixedSnapshots.DeliversWhatLooksWhole` | trading/market_data/market_data_consumer.cpp:119-218 | any message sequence with the right first and last kind is delivered, whatever is between, with the queued incrementals after it unless one is missing |
| `EndToEnd.ExchangeFeedIsGood` | exchange/market_data/market_data_publisher.cpp:15-41 | whatever requests were served, the stream and the snapshots taken of it meet what recovery needs |
| `EndToEnd.ClientHoldsExchangeBooks` | trading/market_data/market_data_consumer.cpp:49-218 | from requests to client books: outside recovery the client holds the exchange's books as of what it counted, and the current ones once it counted all |
| `TidyRuns.RunStaysTidy` | exchange/matcher/matching_engine.h:77-95 | requests in range keep every book and every copy built of a prefix of the updates within price index and pools |
| `FullSystem.FeedFitsTables` | exchange/market_data/snapshot_synthesizer.cpp:28-71 | the order ids in the exchange's updates are inside the synthesizer's tables |
| `SharedPool.TotalIsResting` | exchange/market_data/snapshot_synthesizer.cpp:28-71 | between requests the synthesizer has stored exactly as many orders as rest in the books of all tickers |
| `SharedPool.PoolLastsExactly` | exchange/market_data/snapshot_synthesizer.cpp:7-36 | the synthesizer's pool lasts through all updates of a run if and only if fewer orders than it has blocks rest at the exchange after every request |
| `SharedPool.PoolTooSmall` | exchange/market_data/snapshot_synthesizer.cpp:7-36 | runs with every request in range and every id in the tables in which it does not last: n and m bids in two tickers, n + m at least the size of the pool |
| `FullSystem.PublishAll` | exchange/market_data/market_data_publisher.cpp:15-41 | one publisher and one synthesizer, going on from snapshot to snapshot: exactly as long as the synthesizer's pool lasts, they put the numbered stream and the numbered snapshots on the two channels |
| `Batches.BatchesAreRuns` | trading/market_data/market_data_consumer.cpp:49-97 | what the consumer does on batches it does on some run of single messages |
| `FullSystem.Consume` | trading/market_data/market_data_consumer.cpp:49-97 | the consumer object on any batches of the two channels ends in the state of that run |
| `FullSystem.RequestsToClientLists` | exchange/matcher/matching_engine.h:77-95 | everything composed, with no hypothesis on a heap: no assertion fails, engine, publisher, synthesizer, consumer and client book end sound, the client's orders are what the consumer handed on, and once all updates are counted the client's lists have the exchange's levels and queues in the same order |
| `CatchingUp.LossIsRepaired` | trading/market_data/market_data_consumer.cpp:49-218 | after a loss, and after any broken attempts at snapshots, the updates that come in order and one whole snapshot that covers the loss, mixed in any way, end recovery with every update counted, when the end of the snapshot comes after the last update in it |
| `CatchingUp.CatchesUp` | trading/market_data/market_data_consumer.cpp:49-218 | over any number of losses, each made good like this, and in any batches, the consumer ends outside recovery with every update counted |
| `CatchingUp.NothingLost` | trading/market_data/market_data_consumer.cpp:49-97 | when nothing is lost the consumer hands on exactly the updates the exchange sent |
| `FullSystem.LossesMadeGood` | exchange/matcher/matching_engine.h:77-95 | the whole system again, with nothing assumed of the consumer: when nothing is lost, or every loss is made good by a later snapshot, the client's lists have the exchange's levels and queues |
| `Tracking.TrackGrows` | trading/strategy/order_manager.h:26-44 | responses of an order come as ACCEPTED, then fills each continuing from the quantity left, then at most one end |
| `Tracking.ProcessTracks` | exchange/matcher/me_order_book.cpp:13-169 | after any request the responses of every order of a client tell exactly whether and with what quantity it rests |
| `Tracking.ProcessMoves` | exchange/matcher/me_order_book.cpp:79-169 | one request opens an order only for its own NEW, never reopens one, and after a CANCEL nothing of the order rests |
| `RiskManagement.AllowedExactly` | trading/strategy/risk_manager.h:43-52 | with limits that fit 32 bits the casts are exact, ALLOWED means size, resulting position and loss are within their limits, and each refusal names the first limit broken |
| `RiskManagement.ToInt32Wraps` | trading/strategy/risk_manager.h:46-48 | the casts keep values modulo 2^32 |
| `RiskManagement.HugeLimitRefuses` | trading/strategy/risk_manager.h:46-48 | a position limit above the signed 32-bit range refuses every order |
| `OrderProtocol.OnOrderUpdate` | trading/strategy/order_manager.h:19-45 | a response changes the slot of its ticker and side and no other slot, and CANCEL_REJECTED changes nothing |
| `ProtocolSafety.OwnRequestsAdmissible` | trading/strategy/order_manager.cpp:5-16 | every request the client has in flight will find its order id unused at the exchange |
| `ProtocolSafety.ResponseBelongs` | trading/strategy/order_manager.h:19-45 | a response about to be read belongs to the slot's current order, in a state that expects it, with matching quantities |
| `ProtocolSafety.ServeKeepsInv` | exchange/matcher/matching_engine.h:23-56 | the protocol invariant survives the exchange serving any request |
| `ProtocolSafety.ReadKeepsInv` | trading/strategy/trade_engine.cpp:137-150 | it survives the client reading any response, the fill booked before the slot |
| `ProtocolSafety.MoveKeepsInv` | trading/strategy/order_manager.h:51-83 | it survives every move of an order, for every price, quantity and loss |
| `ProtocolSafety.ReadKeepsBounded` | trading/strategy/trade_engine.cpp:137-150 | a fill moves as much into the position as it takes from the open quantity of its slot |
| `ProtocolSafety.NewKeepsBounded` | trading/strategy/order_manager.h:60-77 | the check at submission keeps position plus open quantity within the limit |
| `OrderProtocol.MoveExactly` | trading/strategy/order_manager.h:51-83 | when a move acts, with the conditions written out: a live order is cancelled if and only if the price differs, a free slot sends a new order if and only if the price is valid and size, resulting position and loss are within limits, and a pending slot does nothing |
| `ProtocolSafety.MoveCases` | trading/strategy/order_manager.h:51-83 | the same of the whole system: what is recorded, sent and left in the slot |
| `ProtocolResults.RunInv` | trading/strategy/order_manager.h:19-95 | the invariant holds in every reachable state of client, exchange, reordering request channel and FIFO response channel |
| `ProtocolResults.RequestsAlwaysAdmissible` | trading/strategy/order_manager.cpp:5-29 | in every reachable state all requests in flight are admissible |
| `ProtocolResults.ResponsesAlwaysBelong` | trading/strategy/order_manager.h:19-45 | in every reachable state the next ACCEPTED, FILLED or CANCELED is for the current order of its slot |
| `ProtocolResults.OneOrderPerSlot` | trading/strategy/order_manager.h:51-95 | in every reachable state of the protocol, with the exchange on sets of orders, at most one order of the client rests on each side of each book |
| `ProtocolResults.PositionAlwaysBounded` | trading/strategy/risk_manager.h:43-52 | in every such state position plus open quantity, and so the position, stays within the limit on both sides |
| `ProtocolResults.DrainedSlots` | trading/strategy/order_manager.h:19-83 | with channels drained no slot is PENDING_NEW, a cancelled slot is DEAD exactly when its order asked for a positive quantity, and LIVE slots with quantity are exactly the resting orders |
| `ProtocolResults.ZeroNeverDies` | exchange/matcher/me_order_book.cpp:92-96 | an order for quantity 0 never leaves its slot |
| `ProtocolResults.ZeroExample` | trading/strategy/order_manager.h:51-83 | a run that leaves the cancel of such an order pending with nothing under way |
| `OrderPrices.RestsAtSlotPrice` | trading/strategy/order_manager.h:51-83 | in every reachable state, drained or not, an order of the client rests at the price its slot shows |
| `OrderPrices.FillsAtSlotPrice` | trading/strategy/order_manager.h:26-44 | the next fill the client reads is at the price of its slot or a better one |
| `OrderPrices.MovesTakeEffect` | trading/strategy/order_manager.h:51-83 | after a move that found the slot not waiting for an acceptance, and with no move to another price since, a live slot is at that price, and once the channels are drained every order of the client at rest on that side is |
| `OrderManagers.OrderManager.NewOrder` | trading/strategy/order_manager.cpp:5-16 | slot, next id and request sent, as specified |
| `OrderManagers.OrderManager.CancelOrder` | trading/strategy/order_manager.cpp:18-29 | slot and request sent, as specified |
| `OrderManagers.OrderManager.MoveOrder` | trading/strategy/order_manager.h:51-83 | the switch on the array slot is the specified move, with the risk result for the current position; what is sent and left in the slot is as `OrderProtocol.MoveExactly` says, with the limits written out |
| `OrderManagers.OrderManager.MoveOrders` | trading/strategy/order_manager.h:85-95 | bid, then ask, both checked against the same position |
| `OrderManagers.OrderManager.OnOrderUpdate` | trading/strategy/order_manager.h:19-45 | the switch on the array slot is the specified update |
| `OrderManagers.TradeEngine.OnOrderUpdate` | trading/strategy/trade_engine.cpp:137-150 | a fill is booked in the position, then the response reaches its slot |
| `ProtocolResults.VenueIsRun` | exchange/matcher/matching_engine.h:23-56 | in every run of the protocol the exchange is where the requests that reached it take it |
| `TradingRuns.SessionsAreRuns` | trading/strategy/order_manager.h:19-95 | a session of the client's objects, with the profit that the ledgers show, is a run of the protocol with the same requests |
| `TradingRuns.Trade` | trading/strategy/trade_engine.cpp:78-150 | in every session of orders moved, quotes seen and responses taken, the order manager's slots are the protocol's, what it sent is what is in flight or has arrived, every `PositionInfo` is booked as its fills say and shows the profit that the session's fills and quotes give, and no position is beyond its limit |
| `TradingRuns.SessionTells` | trading/strategy/position_keeper.h:35-99 | after any session a position is what its fills bought and sold, its cash what they cost, and its mark the last fill's price or the mid of the last two quotes that found it open |
| `TradingRuns.TradeOnBooks` | exchange/matcher/matching_engine.h:77-95 | matching engine and client objects beside each other: when what reaches the exchange in a session is in range, every linked book holds at most one order of the client per side, at the price that the client's slot shows, and no position is beyond its limit |
| `PositionKeeping.PositionInfo.AddFill` | trading/strategy/position_keeper.h:35-76 | after every fill: position and cash move by the quantity and its cost; the open cost grows by it, keeps its average or starts at the fill's price; realised profit = cash + open cost, total profit = cash + position times the fill's price |
| `PositionKeeping.PositionInfo.UpdateBBO` | trading/strategy/position_keeper.h:78-99 | with quotes on both sides an open position is marked at the mid: twice the total profit = twice the cash + position times (bid + ask), twice the unrealised = that less twice the open cost; otherwise nothing changes, and position, cash, cost and realised profit never do |
| `PositionKeeping.PositionInfo.Decrease` | trading/strategy/position_keeper.h:45-54 | reductions realise against the average, flips open the rest at the fill's price |
| `PositionKeeping.FilledExactly` | trading/strategy/position_keeper.h:35-57 | the ledger of a fill, case by case: increase, reduction at a kept average, close or flip at the fill's price |
| `PositionKeeping.LedgerSums` | trading/strategy/position_keeper.h:35-41 | position and cash of the ledger are the plain sums over all fills |
| `PositionKeeping.AverageBetween` | trading/strategy/position_keeper.h:43-54 | the average opening price never leaves the range of the fills' prices |
| `PositionKeeping.SplitFill` | trading/strategy/position_keeper.h:43-54 | two fills at one price count like one, through increases, reductions, closes and flips |
| `LockFreeQueue.FirstInFirstOut` | utils/lock_free_queue.h:25-42 | in every interleaving with at least one slot to spare, what was read is a beginning of what was written and the held slot is not the one being filled |
| `LockFreeQueue.FirstInFirstOutExactly` | utils/lock_free_queue.h:25-42 | for every capacity of 2 or more: all runs read first in, first out if and only if unread entries stay below the capacity |
| `LockFreeQueue.RereadIntact` | exchange/market_data/market_data_publisher.cpp:30-35 | with two slots to spare an element used again after its release is still what it was |
| `LockFreeQueue.RereadExactly` | exchange/market_data/market_data_publisher.cpp:30-35 | for every capacity of 2 or more: the second use is right in all runs if and only if two slots are spare |
| `LockFreeQueue.AssertSafeExactly` | utils/lock_free_queue.h:29-42 | the assertion in `updateReadIndex` holds in every interleaving if and only if the consumer tests `size()` or the count is bumped first |
| `LockFreeQueue.FailingRun` | exchange/matcher/matching_engine.h:82-92 | a consumer that tests only the pointer trips the assertion between the two bumps |
| `LockFreeQueue.OverrunRun` | utils/lock_free_queue.h:25-42 | at every capacity a whole turn of unread entries overwrites the slot being read |
| `LockFreeQueue.RereadRun` | exchange/market_data/market_data_publisher.cpp:30-35 | at every capacity, with one slot to spare the second use reads another element |
| `LockFreeQueue.NextKeepsInv` | utils/lock_free_queue.h:25-42 | every atomic step of either side keeps the queue invariant |
| `MemPools.MemPool.UpdateNextFreeIndex` | utils/mem_pool.h:19-30 | the scan as written stays in bounds exactly when a block at or after the cursor is free, and stops at the first |
| `MemPools.MemPool.Allocate` | utils/mem_pool.h:39-48 | blocks are handed out in order, and exactly the first size - 1 allocations of the pool's life stay in bounds, whatever is given back |
| `MemPools.MemPool.Deallocate` | utils/mem_pool.h:50-56 | both assertions hold exactly for a block in use of this pool, which becomes free |
| `MemPools.MemPool.AllocateWrapping` | utils/mem_pool.h:19-48 | with the wrap inside the loop a free block is handed out and only a full pool is out of space |
| `MemPools.GivenBackAtOnce` | utils/mem_pool.h:19-56 | a pool whose blocks are given back at once still runs out after size - 1 allocations |
| `MemPools.PoolCount` | utils/mem_pool.h:19-56 | when blocks in use are exactly a set of nodes, a block is free exactly when the nodes are fewer than the blocks |
| `Framing.ChunkingIrrelevant` | exchange/order_server/order_server.h:58-90 | for every way of cutting the stream into chunks the loop decodes the messages of the whole stream and keeps the same leftover |
| `Framing.ChannelDelivers` | trading/order_gw/order_gateway.cpp:19-27 | whatever part of a sender's stream has arrived, the receiver has a beginning of the messages sent, and all once all arrived, provided that each of these messages survives encoding |
| `Framing.DecodesWhatWasSent` | trading/order_gw/order_gateway.cpp:19-27 | messages that each survive encoding come out of the byte stream as they went in |
| `Framing.EnoughPolls` | utils/tcp_socket.cpp:25-62 | with room for one message in the buffer every poll that gives something makes progress, and as many polls as bytes take the whole stream |
| `Framing.TCPSocket.DropFront` | exchange/order_server/order_server.h:88-89 | the leftover moves to the front; its source and target ranges do not overlap |
| `WireFormat.PackedRoundTrip` | exchange/order_server/client_request.h:7-8 | packed little-endian fields come out as they went in, whenever each fits its width |
| `WireFormat.PackedAt` | exchange/order_server/client_request.h:7-8 | field after field without padding: each lies between its offset and the next |
| `WireFormat.ByteAt` | exchange/order_server/client_request.h:7-8 | the lowest byte of a field comes first |
| `WireFormat.RequestLayout` | exchange/order_server/client_request.h:10-49 | where every field of every request lies in its 42 bytes, with the codes of type and side |
| `WireFormat.ResponseLayout` | exchange/order_server/client_response.h:10-62 | the same for the 54 bytes of a response |
| `WireFormat.RequestsAreProper` | exchange/order_server/client_request.h:28-49 | the 42 bytes of `OMClientRequest` carry every request whose fields are inside their types |
| `WireFormat.ResponsesAreProper` | exchange/order_server/client_response.h:28-62 | the 54 bytes of `OMClientResponse` carry every response whose fields are inside their types |
| `WireFormat.RequestsOverTheWire` | trading/order_gw/order_gateway.cpp:14-31 | the way out on these bytes: only known clients, fields inside their types and sequence numbers below 2^64 are assumed, and what is forwarded of each client is a beginning of its requests, in order and once, and all of them when its socket is polled enough |
| `OrderServers.OrderServer.RecvCallback` | exchange/order_server/order_server.h:52-91 | every complete request in the buffer passes the filter in order, the leftover stays |
| `OrderServers.OrderServer.SendAndRecv` | utils/tcp_socket.cpp:25-62 | a poll takes as much of the stream as is there, is given and fits, no more and no less, and the complete requests in leftover and portion are admitted |
| `OrderServers.OrderServer.Listen` | utils/tcp_socket.cpp:25-62 | in whatever portions a stream arrives, exactly what the portions give is taken, and requests are admitted as if it had come at once |
| `OrderServers.OrderServer.HandleRequest` | exchange/order_server/order_server.h:65-86 | first socket wins, wrong sockets and wrong numbers are dropped, the rest is forwarded |
| `OrderServers.ForwardedInOrder` | exchange/order_server/order_server.h:65-86 | whatever comes in on whatever sockets, forwarded requests of each client are numbered 1, 2, 3, without gap or repeat |
| `OrderServers.AllForwarded` | exchange/order_server/order_server.h:65-86 | a client that keeps to one socket and numbers from 1 has every request forwarded, once, in order |
| `OrderServers.ServeClients` | exchange/order_server/order_server.h:52-91 | sockets polled in any order and streams arriving in any portions: exactly what the polls give of each stream has arrived, and what is forwarded of each client is what has arrived, a beginning of what it sent, all of it once all has arrived |
| `OrderServers.GatewaysToServer` | trading/order_gw/order_gateway.cpp:14-31 | from the requests of any number of gateways to what the server forwards: of each client in order, once, and all of them when its socket is polled enough |
| `OrderServers.ServerToGateways` | exchange/order_server/order_server.h:29-46 | the way back: from the responses of the exchange, numbered per client, over byte streams in any portions, through the gateways' filters: each client gets a beginning of its responses, in order and once, and all of them when it polls enough |
| `OrderServers.OrderGateway.Listen` | trading/order_gw/order_gateway.cpp:34-67 | in whatever portions the server's stream arrives, it passes the gateway's filter as if it had come at once |
| `OrderServers.ResponseSender.SendResponses` | exchange/order_server/order_server.h:29-46 | responses go out in order, numbered per client from 1 |
| `OrderServers.OrderGateway.SendRequests` | trading/order_gw/order_gateway.cpp:14-31 | requests go out in order, numbered from 1 |
| `OrderServers.OrderGateway.RecvCallback` | trading/order_gw/order_gateway.cpp:34-67 | the complete responses in the buffer pass the gateway's filter in order, the leftover stays |
| `OrderServers.AllPass` | trading/order_gw/order_gateway.cpp:46-57 | the server's numbered stream for a client passes the client's gateway whole |

## Left out

- MatchingEngines.MatchingEngine.Run: assumes every request of the run in range and under an id that no live order of its client has; `MatchingEngines.MatchingEngine.ProcessClientRequest` says of one request exactly what happens otherwise, but nothing is said about the requests after one that was not.
- MarketOrderBooks.MarketOrderBook.ApplyUpdate: assumes that an ADD brings a new id and that MODIFY and CANCEL name an order that is there; the code looks ids up without a test.
- MarketOrderBooks.MarketOrderBook.OnMarketUpdate: the trade engine's notifications (`onTradeUpdate`, `onOrderBookUpdate`) are not part of its state; the BBO claim assumes that no order carries the price that means "no price".
- RecoverySafety.RecoveryIsSafe: safety only, without the splices that `MixedSnapshots.SplicedExactly` shows to go wrong; late incrementals can start another recovery. `CatchingUp.CatchesUp` says when recovery is left, for updates that come in order with some of them lost.
- PositionKeeping.PositionInfo.AddFill: real numbers instead of `double`, unbounded integers instead of `int32_t`.
- LockFreeQueue.FirstInFirstOut: steps are sequentially consistent, as the default order of `std::atomic` gives; slots are read and written whole.
- ProtocolResults.DrainedSlots: says what holds once the channels are drained, not that they drain.
- OrderServers.OrderServer.RecvCallback: client ids in the stream are assumed to be inside the tables; receive timestamps are left out.
- WireFormat.RequestsAreProper: a CANCEL is written with the INVALID markers in side, price and quantity, which the exchange ignores; the order manager sends those of its slot.
- A book's blocks hold the fields of one node for its whole life; that a block given back is overwritten by the next node is not part of this model.
- Fixed-width overflow of ids, priorities, prices and quantities: integers are unbounded, except in the casts of the risk check and the sums of the BBO.
- `FIFOSequencer`: its sort is not stable and promises no order among equal timestamps; the protocol lets requests arrive in any order.
- Sockets, epoll, multicast, threads, clocks, measurement macros and logging.
- `toString` functions other than the sortedness check, enum printers, command lines, main programs and scripts.
- `FeatureEngine`, `MarketMaker` and `LiquidityTaker`: short formulas; the protocol takes their calls as arbitrary.
- The RANDOM mode of `trading/trading_main.cpp:81-112`, which bypasses the order manager.
- The copies of the order book under `trading/market_data/` and of the utilities under `utils/utils_examples/`.
