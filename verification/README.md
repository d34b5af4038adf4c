# TradeX in Dafny

A model of the TradeX matching engine and of the services around it, with machine-checked proofs of
what they guarantee. `dafny verify dfyconfig.toml` checks the whole project.

**Order book and matching.** `Reference` states the trading rules without data structures: each side
of a book is one list, sorted by price and then by arrival, and an incoming order eats the opposite
list from the front. `PriceTime` proves what these rules guarantee over every run: price-time
priority, a book that is never crossed or locked, conservation of quantity, fair trade prices.
`Pool`, `PriceLevels`, `OrderBooks` and `Engine` are the code: one node pool with an intrusive free
list, doubly linked level queues threaded through it, an id index, two lazily cleaned price heaps
that share one flag per level, running totals, and the matching loops. Every operation is proved to
do to this structure what the reference does to its lists (`Levels` and `Quotes` hold the argument
on values), and `Engine.GroupProcessor.RunAll` concludes that over every run the published trades and
the resting orders are exactly the reference's. The shared flags are sound only because the book
never crosses, and the totals are a safe short cut only because they never under-count; both are
part of the invariant. `Outcomes` says in plain prices and quantities what comes of each submission and
cancellation of a run and where each trade comes from. `AsCoded` has the same operations on lists, with the totals and the quick path,
for any quantity: it shows where the promise ends, at orders for quantity 0. `Accounts` follows each
client order through a run.

**Threads.** `Spsc`, `Seqlock` and `Regions` are state machines in which each load, store or queue
operation is one step and threads interleave arbitrarily; `OddExits` shows, on every ring, the reads
that the guarantees of `Seqlock` leave out. `Sharding` shows that splitting the symbols over two group
threads cannot be observed per symbol.

**Order management.** `Iceberg` and `StopLoss` model slicing and triggering, `IcebergLoop` the desk and a
book feeding each other; `SymbolTable` is the packed symbol hash and its table.

**Market feed.** `Wire` is the 64-byte record, `Feed` the sender, `Retransmit` the store and its
cache, `Overlap` its two threads on that cache, `Listening` the gap detection, and `Delivery` puts them
together.

Each buy/sell twin of the code, and the four matching loops that differ only in side and loop
condition, are written once with a `side` parameter; `Key(side, price)` orders prices best first on
either side. Heaps are multisets whose front is any extreme element.

Where code and documentation disagree the model follows the code. In particular `cancelOrder` does
not lower the side totals (so a total is resting plus cancelled quantity), `any_new_trade` compares
a doubled with an undoubled sequence number, `get_trade` can leave its loop on an odd sequence number,
also because its `seq2` starts uninitialised, the order queue with its default capacity of 10000 holds
15 orders, and message number 0 is never requested again when lost.

## Model

| member | source | states |
|---|---|---|
| Reference.MatchEats | src/producer_consumer.cpp:153-196 | Greedy matching consumes makers whole, in book order and at their prices, as long as they can trade; then it stops for good, or one more maker is filled in part, keeps its place, and exhausts the taker |
| Reference.MatchConserves | src/producer_consumer.cpp:153-196 | Taker and makers are debited by exactly the quantity traded |
| Reference.InsertPlace | include/order_book.h:98-114 | A resting order goes behind every order at least as good and ahead of all others |
| Reference.MatchWithinLimit | src/producer_consumer.cpp:153-345 | A limit buy trades at no price above its limit, a limit sell at none below; a market order stops only when it is filled or the other side is empty |
| PriceTime.MatchIsFair | src/producer_consumer.cpp:158-190 | Every trade has positive quantity, the next id, and a price inside the band, within the limit, and no better than the one before |
| PriceTime.MatchKeeps | src/producer_consumer.cpp:153-196 | After matching, the opposite side is still a proper ladder and, if quantity is left, its best price is out of reach |
| PriceTime.SubmitKeepsSound | src/producer_consumer.cpp:144-250 | A submission keeps the book orderly, uncrossed and within capacity, and balances submitted against traded, resting, dropped and cancelled quantity |
| PriceTime.CancelKeepsSound | include/order_book.h:309-321 | So does a cancellation |
| PriceTime.RunKeepsSound | src/producer_consumer.cpp:346-400 | So does every run of submissions and cancellations |
| PriceTime.RunIsPriceTime | src/producer_consumer.cpp:144-400 | From an empty book, in every reachable state every resting order is what is left of a submission of the run and no market order, better prices stand in front, equal prices strictly in the order of their submission, and every bid is strictly below every ask; no clock is assumed |
| PriceTime.WithoutAt | include/order_book.h:309-321 | Cancelling an id removes exactly the one order that carries it and leaves the rest in place |
| Outcomes.MatchTakesAll | src/producer_consumer.cpp:153-345 | A match trades the lesser of what is asked for and what is on offer within the limit |
| Outcomes.SubmitPlaces | src/producer_consumer.cpp:144-400 | What a submission trades, rests and drops, exactly: the rest of it rests if and only if it is a limit order inside the band and there is room |
| Outcomes.RunPlaces | src/producer_consumer.cpp:144-400 | So for every submission of every run |
| Outcomes.RunEmptiesForMarket | src/producer_consumer.cpp:252-345 | In every run a market order trades all it asks for or all there is, and drops something only if it has emptied the other side |
| Outcomes.RunTradesHaveParties | src/producer_consumer.cpp:144-345 | Every trade of a run is between one of its submissions and an earlier limit order of the other side, at the latter's price and within both limits, under the former's symbol and time and each party's own client id |
| Outcomes.RunCancels | include/order_book.h:309-321 | In every run a cancellation takes out exactly the order it names, counts its quantity as cancelled, and trades nothing |
| AsCoded.SweepIsMatch | src/producer_consumer.cpp:154-191 | With at least the makers' quantity in the opposite total, its guard never ends the loop early |
| AsCoded.SubmittedIsReference | src/producer_consumer.cpp:144-400 | Quick path, guards and final add, with honest totals and any positive quantity, are the reference's submission, and the totals stay honest |
| AsCoded.RunCodedIsReference | src/producer_consumer.cpp:144-400 | So over every admissible run |
| AsCoded.ZeroRestsExactlyIf | src/producer_consumer.cpp:148-151 | A limit order of quantity 0 rests exactly if the quick test passes and there is room; otherwise nothing happens |
| AsCoded.SubmittedIsReferenceExactlyIf | src/producer_consumer.cpp:144-400 | With honest totals the code does what the reference does exactly if the quantity is positive, or the order is a market order, outside the band, past the quick test, or without room |
| AsCoded.ZeroLetsTheBookCross | src/producer_consumer.cpp:148-151 | On every sound book with room for two, nothing resting on one side and nothing ever cancelled there (a total of 0), an order of quantity 0 that passes the quick test rests there, and so does any order of the other side that could trade with it: the book is crossed |
| AsCoded.SweepLeavesZeros | src/producer_consumer.cpp:154-191 | Where the total is exact the loop ends with it, and orders for nothing behind the others stay |
| AsCoded.ZeroTradesForNothing | src/producer_consumer.cpp:153-196 | With nothing resting there but a total that is not 0, the order of quantity 0 rests too; the next order that crosses it matches it, publishes a trade of quantity 0, removes it and rests whole |
| AsCoded.ZeroCrossesExactlyIf | src/producer_consumer.cpp:144-250 | So where nothing rests on a side, the book crosses exactly if nothing was ever cancelled there |
| Accounts.ClientAccount | src/producer_consumer.cpp:144-400 | Over every run, each client order's submitted quantity is exactly its traded, resting, dropped and cancelled quantity |
| Accounts.DroppedIsDiscarded | src/producer_consumer.cpp:144-400 | What that account calls dropped is what the side's ledger records |
| Accounts.FillsFitTheirOrder | src/oms.cpp:317-337 | Each trade of a client order submitted on one side is positive, no more than what is open of it, and has it on one side only |
| Pool.MemPool.constructor | include/order_book.h:30-41 | All nodes are on the free list |
| Pool.MemPool.Allocate | include/order_book.h:47-56 | Takes the head of the free list, or reports that it is empty; no other node changes |
| Pool.MemPool.Deallocate | include/order_book.h:58-64 | Puts a node back at the head of the free list |
| PriceLevels.Pigeonhole | include/order_book.h:22-69 | A list of distinct nodes is no longer than the pool |
| PriceLevels.PartitionTake | include/order_book.h:47-56 | Moving the head of the free list to a level keeps free list and levels a partition of the pool |
| PriceLevels.PartitionGive | include/order_book.h:58-64 | So does moving a queued node back |
| PriceLevels.QueueAppend | include/order_book.h:98-114 | Linking a node behind the tail appends one order to a doubly linked level |
| PriceLevels.QueueRemove | include/order_book.h:117-143 | Relinking the two neighbours removes exactly one order, wherever it stands |
| PriceLevels.WiredInsert | include/order_book.h:98-114 | An insertion leaves all other levels, the free list and the partition intact |
| PriceLevels.WiredRemove | include/order_book.h:117-143 | So does a removal |
| PriceLevels.Queues.constructor | include/order_book.h:190-193 | All levels are empty and all nodes free |
| PriceLevels.Queues.InsertOrder | include/order_book.h:98-114 | Appends the order to its level, or fails exactly when the pool is full |
| PriceLevels.Queues.RemoveOrder | include/order_book.h:117-143 | Removes one queued node, keeping the order of the others, and frees it |
| Levels.FlatInsert | include/order_book.h:225-261 | Appending to a level is inserting into the side's sorted list |
| Levels.FlatAt | include/order_book.h:309-321 | Where the k-th order of a level stands in the side's sorted list |
| Quotes.AddCached | include/order_book.h:229-240 | Adding keeps the heaps and the shared flags exact |
| Quotes.RemoveCached | include/order_book.h:271-321 | Emptying a level leaves at most one stale entry, in the heap of its own side |
| Quotes.PopStale | include/order_book.h:203-206 | Popping a stale entry keeps flags and heaps exact: a flag is set exactly if its price is in one heap, never in both and never twice |
| Quotes.CleanTop | include/order_book.h:202-216 | Once the top is not stale it is the best price of the side's orders |
| Quotes.LevelIsOurs | src/producer_consumer.cpp:148-151 | Because the book does not cross, the level an order rests at holds orders of its own side only |
| Quotes.SentinelsExactlyIf | include/order_book.h:182-183 | The two sentinel prices lie outside the band exactly if 0 < lower and upper < 2^64 - 1 |
| OrderBooks.IndexExact | include/order_book.h:197-199 | The truncating price index is the offset from the lower limit inside the band; another price passes the range test exactly if it equals one of the band modulo 2^32 |
| OrderBooks.OrderBook.constructor | include/order_book.h:177-195 | An empty, valid book |
| OrderBooks.OrderBook.BestPrice | include/order_book.h:202-216 | Terminates with the true best price of the side, or the sentinel exactly if nothing rests there |
| OrderBooks.OrderBook.ZeroTotalIsClear | src/producer_consumer.cpp:148-151 | A zero total means that the side is empty and that its heap holds no stale entry |
| OrderBooks.OrderBook.AddOrder | include/order_book.h:225-261 | The order joins its side at its price-time place, or is refused exactly when out of band or out of nodes; the whole representation stays valid |
| OrderBooks.OrderBook.RemoveHead | include/order_book.h:271-307 | Removes the front order of a level of its side, best or not, and its quantity from the total; false exactly if the level is empty |
| OrderBooks.OrderBook.CancelOrder | include/order_book.h:309-321 | Removes the order with that id, if any, and turns its quantity into over-count of the total |
| OrderBooks.OrderBook.ModifyQuantity | include/order_book.h:323-329 | Reduces the front order in place; it keeps its priority |
| OrderBooks.OrderBook.DecreaseTotal | include/order_book.h:335-336 | Lowers a total without underflow and restores the account |
| Engine.GroupProcessor.GuardIsExact | src/producer_consumer.cpp:154-154 | The loop condition holds exactly when the reference can match, so the head of an empty level is never read |
| Engine.GroupProcessor.HeadOrder | src/producer_consumer.cpp:155-156 | Reads the first order of the opposite side |
| Engine.GroupProcessor.FillPart | src/producer_consumer.cpp:156-173 | One trade for all that is left; the maker keeps its place with the difference |
| Engine.GroupProcessor.FillWhole | src/producer_consumer.cpp:174-190 | One trade for the whole maker, which leaves the book |
| Engine.GroupProcessor.Sweep | src/producer_consumer.cpp:153-191 | The matching loop makes exactly the reference's trades and leaves exactly its makers and remainder |
| Engine.GroupProcessor.ProcessMarket | src/producer_consumer.cpp:252-344 | A market order is the reference's submission; its remainder is dropped |
| Engine.GroupProcessor.ProcessLimit | src/producer_consumer.cpp:144-250 | A limit order is the reference's submission and trades at no price beyond its limit; its remainder rests if there is a node |
| Engine.GroupProcessor.ProcessOrder | src/producer_consumer.cpp:346-400 | Any order, also one refused for its price, is one reference step |
| Engine.GroupProcessor.Cancel | include/order_book.h:309-321 | A cancellation is one reference step |
| Engine.GroupProcessor.RunAll | src/producer_consumer.cpp:96-109 | Over every admissible run the trades and the resting orders are those of the reference |
| Bits.MaskPower | src/spsc_queue.cpp:8-10 | Masking with n - 1 is the remainder by n for a power of two |
| Bits.TwoPartIsLargest | src/producer_consumer.cpp:37-37 | `TwoPart(n)` is the largest power of two dividing n |
| Bits.MaskCounts | src/producer_consumer.cpp:37-37 | For any n the mask counts modulo the largest power of two dividing n |
| Spsc.TestsExact | src/producer_consumer.cpp:35-52 | The full test fires exactly when all but one slot are taken, the empty test exactly when none is |
| Spsc.WriteIsFree | src/producer_consumer.cpp:40-41 | A push never overwrites an item still queued |
| Spsc.StepKeeps | src/producer_consumer.cpp:35-52 | Every load and store of either thread keeps the queue's invariant |
| Spsc.BoundedFifo | src/producer_consumer.cpp:22-53 | In every interleaving the queue is a bounded FIFO for any capacity, a push goes on exactly if there is room and a pop exactly if something is queued, and no slot is written while it is read |
| Spsc.PushAppends | src/producer_consumer.cpp:35-43 | In every reachable state a push appends its item if fewer than the usable places are taken, and otherwise changes nothing |
| Spsc.PopDelivers | src/producer_consumer.cpp:45-52 | A pop delivers the oldest item queued, exactly if there is one |
| Spsc.PushIsAccepted | src/producer_consumer.cpp:35-43 | Under any interleaving a push whose test finds room is accepted once its last two steps are taken; one whose test finds none is over |
| Spsc.PopIsDelivered | src/producer_consumer.cpp:45-52 | Likewise a pop whose test finds something delivers the oldest item |
| Spsc.DefaultCapacity | include/oms.h:99-99 | The default capacity 10000 gives 15 usable places |
| Spsc.CounterSizes | src/listener.cpp:3-31 | The message, request and region queues with free-running counters are instances |
| Seqlock.BeginKeeps | src/trade_ring_buffer.cpp:52-55 | Marking a slot odd keeps the ring's invariant for all readers |
| Seqlock.CopyInKeeps | src/trade_ring_buffer.cpp:57-58 | So does copying any one word |
| Seqlock.FinishKeeps | src/trade_ring_buffer.cpp:60-64 | So does the even mark that publishes the trade |
| Seqlock.ReaderKeeps | src/trade_ring_buffer.cpp:92-105 | So does every step of a reader |
| Seqlock.NoTornReads | src/trade_ring_buffer.cpp:92-126 | In every interleaving what any reader, lapped or not, takes away on an even number is one whole published trade, a whole number of laps from the one asked for |
| Seqlock.ReadsInOrder | src/trade_ring_buffer.cpp:92-126 | In every interleaving the n-th read of a reader that is not lapped, with n + 3 < 2 * size, is exactly the n-th published trade, unless the uninitialised `seq2` held 2(n+1)+1 and the loop left on that number |
| Seqlock.PollExact | src/trade_ring_buffer.cpp:68-72 | Below 2 * size - 2 the poll answers yes exactly when the expected trade has been begun |
| Seqlock.PollFalseAlarm | src/trade_ring_buffer.cpp:68-72 | From 2 * size - 2 on it answers yes to a reader that is up to date although nothing new has been begun |
| OddExits.JunkExit | src/trade_ring_buffer.cpp:94-102 | That exception is real on every ring and for every n: an up-to-date reader returns a buffer it never wrote to |
| OddExits.TornExit | src/trade_ring_buffer.cpp:53-102 | So is the bound, on every ring: for every n with n + 3 >= 2 * size and n >= size, a reader that is not lapped and whose `seq2` is 0 can return half of two trades |
| OddExits.StaleExit | src/trade_ring_buffer.cpp:68-105 | Under the same conditions an up-to-date reader that is not lapped can leave on an even number with a trade of an earlier lap, although nothing new has been published |
| OddExits.LappedReaderTears | src/trade_ring_buffer.cpp:95-102 | So is the lap, on every ring: a reader lapped during its first copy can return half of two trades |
| Seqlock.IndexFollows | src/trade_ring_buffer.cpp:122-126 | Ring index and sequence number advance together |
| Regions.GiveSucceeds | src/trade_processor.cpp:64-77 | A queue always has room for a region that is given, so the ignored results are always true |
| Regions.RoomIsUsableSize | include/trade_processor.h:31-31 | The 32-slot region queue has room for exactly 31 regions |
| Regions.StepKeeps | src/trade_processor.cpp:93-185 | Every step of either thread moves regions without losing or copying one |
| Regions.RegionsConserved | src/trade_processor.cpp:93-185 | In every interleaving the 31 regions are split between queues and threads; syncs follow hand-overs one for one; at the end all 31 have been unmapped once |
| Regions.TradesAreLaidOut | src/trade_processor.cpp:93-134 | In every interleaving the trades written are those of the regions handed over, ceil(fileSize / 48) each, and one per 48 bytes of the region in hand; at the end all have been written and only the last region handed over may be part full |
| Regions.BoundedOverrun | src/trade_processor.cpp:119-127 | The next trade goes right behind those already in its region and starts inside it, so it runs over by less than one trade |
| Regions.NeverStuck | src/trade_processor.cpp:93-185 | From every reachable state both threads can go on to the end, with all trades written and every region that holds one synced |
| Sharding.RoutingIsExact | src/producer_consumer.cpp:459-469 | Group and slot together are the symbol modulo 2048, so ids below 2048 never share a book |
| Sharding.MatchIgnoresIds | src/producer_consumer.cpp:153-196 | The trade counter influences nothing but trade ids |
| Sharding.SubmitIgnoresHistory | src/producer_consumer.cpp:346-400 | A submission does not depend on earlier trades but for the ids it assigns |
| Sharding.GroupThenBook | src/producer_consumer.cpp:459-469 | Splitting by group keeps each book's orders complete and in dispatch order |
| Sharding.SequentialAgrees | src/producer_consumer.cpp:87-109 | In one engine with all books each book is what its own orders would have produced alone |
| Sharding.AfterKeeps | src/producer_consumer.cpp:87-109 | Under every schedule each group has taken its orders in dispatch order and each book is what the orders taken for it produce |
| Sharding.ShardingIsInvisible | src/producer_consumer.cpp:459-504 | Once a group's queue is empty, each of its symbols has the book and, but for ids, the trades of the single engine fed in dispatch order |
| Sharding.DispatchQueues | src/producer_consumer.cpp:459-469 | An order is taken on exactly if its group's queue has room, and waits behind all others |
| Sharding.WorkDrains | src/producer_consumer.cpp:87-109 | As many passes of a group's loop as it has orders queued empty its queue, in order |
| Sharding.AllGetThrough | src/producer_consumer.cpp:459-469 | With queues of any size all orders can be dispatched and processed |
| Iceberg.TestIsExact | src/oms.cpp:327-330 | After a fill the modulo test fires exactly when nothing of the live slice is left |
| Iceberg.SliceGoesOut | src/oms.cpp:290-313 | The next slice is a display or what is left, and keeps the parent's account |
| Iceberg.FilledParent | src/oms.cpp:286-347 | Fills and dispatched quantity never exceed the parent's; when filled it has used exactly ceil(quantity / display) children |
| Iceberg.ParentAccount | src/oms.cpp:286-347 | At any time an unfinished parent has exactly one live child, which carries all its open quantity; a finished one has none; every order sent out is a limit order on its parent's side, at its price, in its symbol and for its trader |
| Iceberg.Desk.SendSlice | src/oms.cpp:286-315 | Sends the next slice of a parent that is due one, a display or what is left, on the parent's terms and under the next child id; or closes it |
| Iceberg.Desk.Register | src/oms.cpp:121-125 | A new parent gets its first slice, or is closed if it asks for nothing |
| Iceberg.Desk.FillLeg | src/oms.cpp:322-337 | Credits the parent of a live child and replaces the child once it is used up; other parents are untouched |
| Iceberg.Desk.CheckFill | src/oms.cpp:317-347 | Each leg that carries the iceberg bit credits its parent with the traded quantity, and nobody else is credited; child by child, exactly what was traded is no longer open |
| IcebergLoop.FillFits | src/oms.cpp:322-337 | With the desk's children fed to a book and its trades read in order, the next trade of a live child is positive, no more than is open of it, and has it on one side only |
| IcebergLoop.FillOnTerms | src/oms.cpp:299-337 | The next trade has a live child on its parent's side |
| IcebergLoop.UnbornHasNoTrades | src/oms.cpp:297-300 | A child id not yet given out is party to no trade |
| IcebergLoop.UnusedIsFree | src/oms.cpp:297-302 | An id never submitted does not rest, so every child is admissible when it arrives |
| IcebergLoop.ForeignIsAdmissible | src/oms.cpp:134-151 | An order under the next id of the rising counter of all other orders is admissible when it arrives |
| IcebergLoop.Floor.Place | src/oms.cpp:121-125 | A new parent keeps the joint account |
| IcebergLoop.Floor.TakeChild | src/producer_consumer.cpp:96-102 | So does the book taking the next child |
| IcebergLoop.Floor.TakeForeign | src/oms.cpp:134-151 | So does any order of another client, under the next id of that counter; that the id is free is proved |
| IcebergLoop.Floor.TakeCancel | include/order_book.h:309-321 | So does a cancellation of any id |
| IcebergLoop.Floor.ReadTrade | src/oms.cpp:170-175 | So does reading the next trade, whose fit is proved, not assumed: in every such run what is open of each live child is what was dispatched for it less the trades read, and a buying parent is credited with exactly the trades in which its child buys, a selling one with its sales |
| StopLoss.FrontExists | src/oms.cpp:192-198 | A heap that is not empty has a front in trigger order |
| StopLoss.SentExactlyIfFired | src/oms.cpp:178-265 | At any time a registered sell stop has been sent, once, exactly if some price handled since its registration is at or below its trigger, a buy stop exactly if some is at or above it; otherwise it still waits |
| StopLoss.Registry.Register | src/oms.cpp:200-214 | The stop joins the heap of its side and no other |
| StopLoss.Registry.TakeId | src/oms.cpp:134-151 | Any other order takes its id from the same counter, above all ids given out so far |
| StopLoss.Registry.Drain | src/oms.cpp:216-265 | Sends exactly the stops of a side that fire, in trigger order, one limit order each, under rising ids from the counter all orders share |
| StopLoss.Registry.CheckAndTrigger | src/oms.cpp:216-265 | A check sends the sell stops with a trigger at or above the price and then the buy stops with one at or below it, and nothing else, each as a limit order with its own price, side, symbol, quantity, trader and client id; registered is waiting plus sent, none twice |
| StopLoss.Registry.OnPrice | src/oms.cpp:178-186 | Only a changed price is checked; a waiting stop has fired at no change handled since it was registered |
| StopLoss.Registry.RunAll | src/oms.cpp:112-188 | Over every run of stops and prices, what is registered and which price changes are handled is fixed by the events, so the stops sent are too |
| SymbolTable.HashInTable | src/oms.cpp:66-77 | The hash of a symbol of letters, of any length, is a base-32 number of its first four and at most 879450 |
| SymbolTable.HashIsExact | src/oms.cpp:66-77 | Two symbols of letters have the same hash exactly if their first four letters agree up to case |
| SymbolTable.FindHash | src/oms.cpp:66-77 | The loop computes that hash, with 32-bit wrap-around for any other symbol |
| SymbolTable.LookupIsByTicker | src/oms.cpp:36-46 | For symbols of letters the last listing under a hash is the last one with the same first four letters |
| SymbolTable.Load | src/oms.cpp:36-46 | After loading, the table answers for every symbol that indexes it with the id last listed under its hash, or -1 |
| SymbolTable.FindId | src/oms.cpp:78-82 | A lookup gives that answer, -1 for every hash outside the table, and for symbols of letters goes by the first four |
| Wire.DecodeEncode | include/message.h:5-13 | A record read back is the message written, whatever its padding |
| Wire.FieldsAt | include/message.h:5-13 | Each field stands at its offset in the struct, lowest byte first |
| Wire.ParseStream | src/retransmitter.cpp:165-176 | A stream of records, followed by any incomplete one, parses to the messages written |
| Feed.OneMorePacket | src/MarketFeedReader.cpp:172-192 | Packet after packet carries the stream on without a gap |
| Feed.Sender.Publish | src/MarketFeedReader.cpp:243-253 | Numbers rise by one per trade; the queue takes the message or, when full, drops it |
| Feed.Sender.PackPacket | src/MarketFeedReader.cpp:172-190 | Moves up to 23 records into a packet and the same bytes into the TCP buffer |
| Feed.Sender.NextPacket | src/MarketFeedReader.cpp:167-193 | A packet is completed, or left for the flush because the queue ran dry |
| Feed.Sender.Flush | src/MarketFeedReader.cpp:195-205 | The size computed for the last packet is that of the records copied into it |
| Feed.Sender.FillBatch | src/MarketFeedReader.cpp:161-205 | A batch takes all records or as many as fit; its packets together are the TCP bytes and the records taken |
| Feed.Sender.Transmit | src/MarketFeedReader.cpp:209-236 | The packets go out whole; the TCP stream grows by exactly the bytes the connection takes before it would block |
| Feed.Sender.SendBatch | src/MarketFeedReader.cpp:161-237 | Over all batches the packets together are the records taken, in order; the TCP stream grows by a stated prefix of each batch and equals them exactly if no byte was refused |
| Retransmit.SplitNext | src/retransmitter.cpp:166-176 | One turn of the parsing loop turns the next 64 bytes into one message |
| Retransmit.CacheNext | src/retransmitter.cpp:172-172 | The masked write keeps each slot holding the last message that falls on it |
| Retransmit.SlotIsExact | src/retransmitter.cpp:238-252 | For consecutive numbers and any initial cache, the slot of s holds s exactly if s was stored and s + SIZE was not, or if it carried s from the start and nothing was stored on it; in the first case it is message s |
| Retransmit.Retransmitter.StoreRecords | src/retransmitter.cpp:165-176 | Stores every complete record, oldest first, and stops with less than one left |
| Retransmit.Retransmitter.Shift | src/retransmitter.cpp:178-185 | The incomplete record moves to the front of the buffer |
| Retransmit.Retransmitter.Receive | src/retransmitter.cpp:141-188 | For every division of the stream into chunks, the messages stored are those of all bytes received, with less than one record left over |
| Retransmit.Retransmitter.Request | src/retransmitter.cpp:238-252 | A request is answered in exactly those cases, and with that message |
| Overlap.StepKeeps | src/retransmitter.cpp:165-252 | With records stored and answers sent word by word, in any order and interleaved anyhow, every step keeps each word that of the last record begun on its slot or still that of the one before |
| Overlap.QuietIsAtomic | src/retransmitter.cpp:165-252 | In every interleaving, a request during which nothing is stored on its slot is answered exactly if the slot held its number when compared, with exactly the record held; any other answer consists of words of records that fell on the slot |
| Overlap.QuietIsRequest | src/retransmitter.cpp:238-252 | Such a request is answered as the atomic one |
| Overlap.AnswerIsWhole | src/retransmitter.cpp:245-251 | A record complete when compared is answered whole if the one a lap later is not begun before the answer is out |
| Overlap.MixedAnswer | src/retransmitter.cpp:172-172 | If it is, the answer can be any number of words of one record and the rest of the other, for every cache and every record |
| Overlap.HurriedAnswer | src/retransmitter.cpp:245-251 | A record not complete when compared can be answered with the previous contents of the slot under the new number |
| Listening.GapsAreExact | src/listener.cpp:127-150 | Without reordering, received and requested numbers are disjoint and cover 1 to the last, each requested once |
| Listening.CoveredExactlyIf | src/listener.cpp:127-150 | For any arrivals, lost, repeated or reordered, received and requested numbers are disjoint, cover 1 to the last and none is requested twice exactly if every late number was seen before or is 0, nothing is skipped before the highest number is reached again, and the last number is the highest |
| Listening.RequestsRise | src/listener.cpp:139-147 | Requests that repeat nothing are also made in rising order |
| Listening.ReorderingBreaksIt | src/listener.cpp:139-147 | For pairwise distinct numbers, 0 included, that holds exactly if they arrive in rising order |
| Listening.Listener.See | src/listener.cpp:139-147 | One message adds exactly the numbers skipped since the last one |
| Listening.Listener.Packet | src/listener.cpp:130-149 | A packet's messages are seen in order |
| Listening.Listener.Batch | src/listener.cpp:127-150 | Nothing is forgotten between packets or batches |
| Delivery.HeardIsStream | src/listener.cpp:127-150 | Reading the packets one by one is reading the whole stream |
| Delivery.SenderCarries | src/MarketFeedReader.cpp:161-253 | At any time a sender's packets carry the records taken, with rising numbers, without a hole while nothing was dropped; its stream does exactly if TCP refused nothing |
| Delivery.ParsedExactlyIf | src/retransmitter.cpp:141-188 | A retransmitter that gets all bytes TCP took recovers the messages exactly if TCP refused none |
| Delivery.KeptIsExact | src/listener.cpp:127-150 | Of the packets sent exactly those marked arrive, in order, for any marking |
| Delivery.LossIsNoticed | src/listener.cpp:127-150 | Whatever packets are lost, every number from 1 to the last seen is received or requested, never both and none twice |
| Delivery.LossIsRepaired | src/retransmitter.cpp:238-252 | If nothing was dropped before sending and the whole TCP stream has arrived, then whatever the cache held at the start each number requested less than a lap late is answered with that very message |

## Left out

- Preconditions on orders: quantities are at least 1 and ids are not resting. The order management system checks neither; `AsCoded.ZeroCrossesExactlyIf` shows what quantity 0 does, and `IcebergLoop.ForeignIsAdmissible` why ids are free.
- Preconditions on books: `0 < lower <= upper < 2^64 - 1` (see `Quotes.SentinelsExactlyIf`), fewer than 2^31 levels and nodes. Totals start at 0, which the constructor leaves uninitialised.
- Wrap-around of 64-bit totals, trade ids, order ids and message numbers, and of the ring's sequence numbers at 2^60.
- OrderBooks.OrderBook.constructor: the requirements on books above.
- OrderBooks.OrderBook.ModifyQuantity: covers reductions of the front order of the best level, the only use the engine makes of it.
- OrderBooks.OrderBook.AddOrder: requires that the order trades with nothing and that the opposite heap has forgotten its price, which the matching loops establish.
- OrderBooks.OrderBook.DecreaseTotal: covers lowering a total by no more than it over-counts, as after a reduction; beyond that the total would under-count and no longer be a safe short cut.
- Quotes.Top: a priority queue is a multiset with an extreme front; the array layout of the standard heap is not modelled. The same holds for the stop-loss heaps and the hash maps.
- Engine.GroupProcessor.RunAll: one symbol; the last-traded-price slots, indexed by symbol modulo 1024 and so shared by symbols k and k + 1024, are kept per symbol only.
- Sharding.ShardingIsInvisible: the group queues are FIFOs of any capacity (justified by `Spsc.BoundedFifo`), and last-traded-price slots are excluded.
- Seqlock.ReadsInOrder: `lagged_out` is not modelled; it mixes doubled and undoubled numbers.
- Weak memory: the thread models assume sequentially consistent loads and stores.
- Regions.RegionsConserved: queue operations are single steps, and the contents of regions are not modelled.
- Iceberg.Desk.Register: requires a new client id, a display of at least 1, an initial fill of 0 and the active mark, all of which the client supplies and the code takes over unchecked.
- Iceberg.Desk.CheckFill: requires that a trade of a live child is positive and at most what is open of it. `IcebergLoop.Floor.ReadTrade` proves this of the trades of a book; that the ring hands them over in order is `Seqlock.ReadsInOrder`, below its bound n + 3 < 2 * size. Past it a stale trade can be credited again: `OddExits.StaleExit`.
- IcebergLoop.Floor.ReadTrade: one book, and the child counter has not wrapped.
- IcebergLoop.Floor.Place: the same requirements as Iceberg.Desk.Register.
- IcebergLoop.Floor.TakeForeign: client ids of other clients do not carry the iceberg bit (the code would take such an id for a child), quantities are positive, and the order counter is below the iceberg bit.
- StopLoss.Registry.Register: one registry slot; symbols k and k + 1024 share one.
- SymbolTable.Load: requires that every listed hash is inside the table; otherwise the code writes outside it. Characters are ASCII.
- Feed.Sender.SendBatch: what a retransmitter makes of a TCP stream that lacks bytes is the parse of the bytes it gets. The queue is the sequence of messages that arrive before a pop first fails.
- Retransmit.Retransmitter.Request: a request is one step, as is a receive. `Overlap` has them word by word; there `Overlap.QuietIsRequest` gives the condition under which a request may be taken for one step, and `Overlap.MixedAnswer` what happens otherwise. `Delivery.LossIsRepaired` is about such requests.
- Listening.Listener.See: assumes the request queue is never full; a refused push is ignored by the code and its number never requested.
- Sockets, polling, shared memory and file mapping, timestamps, CSV files, bots, benchmarks and console output.
