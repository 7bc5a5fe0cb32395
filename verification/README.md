# A verified model of the LOB-CITY engine

LOB-CITY is a limit order book with everything around it: a FIX gateway reading a TCP stream, a
pre-trade risk gate, a matching engine behind a lock-free queue, a market-data ring, and a market
maker that trades on the book in a simulator. This project models that logic in Dafny and proves
what the parts promise each other.

`dafny verify dfyconfig.toml` checks the whole project.

## How it is laid out

The book exists twice.

* **As a value** (`Matching`): one sequence of resting orders per side in price-time order. An
  incoming order consumes the opposite sequence greedily from the front (`Consume`), a cancel splices
  one entry out, a modify splices in place or re-inserts at the back of its new level. `Step` is one
  operation, `Run` a whole run. The market-level theorems are proved here: the book stays well formed
  and uncrossed (`BookInvariants`), executions are optimal (`Execution`), time priority holds over
  runs (`Priority`, `QueuePlace`), quantity is conserved (`Ledger`) and stays positive
  (`Quantities`), the feed shows the top (`Feed`, `Staleness`).
* **On the heap** (`Nodes`, `OrderBooks`): order nodes with `next` and `prev`, price levels with
  `head`, `tail` and a running 32-bit volume, two maps of levels, the id index, and the pool that owns
  every node. The matching loops unlink and recycle nodes while they walk the list. Each method is
  proved to compute the function of the same name on the value, and `Valid` ties levels, index and pool
  to each other. `Levels` relates the maps of levels to the flat sequences.

Around the book:

* `Ring`: both rings as a step machine. A push and a pop are taken apart into their memory steps, any
  interleaving is a schedule, the index loaded from the other side may be stale, and a slot write may be
  half done. The order queue's caller spins on a full ring; the market-data ring's caller drops, and
  `MarketFeed` says what its reader ends up with.
* `Fix`, `Framing`, `RoundTrip`: number parsing, the message parser, the framing loop over the
  accumulator, and the way back from printed messages.
* `RateLimit`, `Risk`, `Gateway`, `Session`: the fixed-window limiter, the risk gate with its price
  collar, the three handlers, and what holds of whole sessions of messages.
* `Pipeline`: socket to book, through framing, ring and engine thread.
* `Pnl`, `Quoting`, `Inventory`, `QuotePolicy`, `SelfTrades`, `Unseen`, `Drift`, `TrackedPosition`,
  `MarketMaking`: average-cost accounting, the quoting rule and its position limit, what whole sessions
  show, what the maker overlooks in them and how far that takes it, and the market maker and the
  simulator's loop on the heap book.

## What came out of it

Some properties one would like are false of the code. Each is shown false by a concrete input, with
the exact condition under which it holds.

* A modify is re-queued without matching, so it can cross the book: the book is uncrossed throughout a
  run if and only if no modify is moved to a price the opposite best already meets.
* A modify to quantity 0 rests an order for nothing, and a later taker logs a trade of 0 with it:
  quantities stay positive throughout a run if and only if no modify gives a live order quantity 0.
  Through the gateway that takes a replacement for a multiple of 2^32 shares, which the risk gate passes
  because the cast to 32 bits comes after the test for a positive quantity.
* Market-data quantities can be stale, since a submit or a modify that moves no best price publishes
  nothing. They stay current throughout a run if and only if no submit takes part of the opposite best
  level or joins its own, and no modify changes the volume of a best level that stays; amounts that are
  multiples of 2^32 do not show. Prices always agree on the near side of the market-data ring.
* At the far side of it the last price can be lost, since a full ring drops it. A reader that catches up
  has the book's prices after every interleaving if and only if the run publishes no other prices than its
  last from the message on that fills the ring. Up to 1023 messages never mislead it; 1024 improving
  offers can.
* The end of a message is found by an unanchored search for "10=", so a field with a tag that ends in 10
  (MinQty, tag 110) or a value that holds "10=" cuts its message in two. A stream of messages comes back
  as sent if and only if it has no such field.
* The rate limiter admits twice its configured number in an interval as long as its window, and that
  bound is reached. The limit holds of every interval if and only if it is 0 or the window is at most one
  nanosecond. Within one window it holds if and only if fewer than 2^32 messages arrive.
  With a clock that goes back there is no bound.
* The market maker's limit binds the position it tracks; the one it has can exceed it. Every fill is
  accounted for, and the limit holds of the true position, when no synthetic order takes one of its
  quotes and leaves the book one-sided, and no requote crosses the best price of the others or the
  maker's own new bid. The first half is an equivalence. In any case the true position exceeds the limit by
  at most one quote for each round in which something is overlooked, and that bound is reached.
* A maker that quotes at all can trade with itself if and only if its half spread is not positive.

Assumptions that the code makes and does not check are preconditions here: ids that enter the book are
not live there (`Admissible`), the clock is monotone (`RateLimit.Clock`), a synthetic order's id is below
the market maker's range and not 0 (`Inventory.FreshBeats`).

Where comments and code disagree the model follows the code: a cancel names its order by tag 11, and
the price level's volume, quantities and the message count wrap at 32 bits.

## Model

| member | source | states |
|---|---|---|
| `BookInvariants.RunKeepsWf` | src/core/OrderBook.cpp:86-209 | After every admissible run of submits, cancels and modifies both sides are sorted by price with unique ids, and no id is on both sides |
| `BookInvariants.StepUncrossedIff` | src/core/OrderBook.cpp:95-209 | From an uncrossed book an operation leads to an uncrossed one if and only if it is not a modify of a live order to a price the opposite best meets |
| `BookInvariants.RunStaysUncrossed` | src/core/OrderBook.cpp:95-209 | Best bid below best ask after every run of submits, cancels and modifies that stay on their side |
| `BookInvariants.UncrossedThroughoutIff` | src/core/OrderBook.cpp:95-209 | Every prefix of a run leaves the book uncrossed if and only if no modify of it is moved through the opposite best of its moment |
| `BookInvariants.ModifyCanCross` | src/core/OrderBook.cpp:181-201 | A run of two submits and one modify that ends crossed without a trade |
| `Execution.FillsAllItCan` | src/core/OrderBook.cpp:20-84 | The filled quantity is the smaller of the order's quantity and all the volume it was willing to trade with |
| `Execution.FillsMost` | src/core/OrderBook.cpp:20-84 | No allocation over the opposite side within the order's limit and quantity fills more |
| `Execution.FillsWithinLimit` | src/core/OrderBook.cpp:25-48 | What matching takes from the resting orders is itself an allocation within the limit, of that volume and that price |
| `Execution.OptimalExecution` | src/core/OrderBook.cpp:20-84 | No allocation of the same number of units over the opposite side, within the limit or not, costs a buyer less, or earns a seller more |
| `Execution.TradesWithinLimit` | src/core/OrderBook.cpp:25-33 | The i-th trade is with the i-th resting order at its price and at the time of the call, no worse than a limit order's own price, and prices only get worse within one call |
| `Execution.ConsumeTwice` | src/core/OrderBook.cpp:20-51 | Consuming q1 and then the rest plus q2 leaves the same side and takes the same from every order as consuming q1 + q2 at once |
| `Execution.MarketOrdersAdd` | src/core/OrderBook.cpp:20-111 | A market order split in two leaves the same book and takes the same quantity from each resting order |
| `Priority.PriorityOverRun` | src/core/OrderBook.cpp:20-209 | In any run that touches neither, an order behind another does not trade before the one ahead is completely filled, and until then their order is kept |
| `QueuePlace.SubmitPlace` | src/core/OrderBook.cpp:86-107 | A new order that rests stands behind exactly the orders of its side that are at least as good |
| `QueuePlace.ModifyPlace` | src/core/OrderBook.cpp:156-201 | Same price and smaller quantity keep an order's place among all others; any other modify puts it behind exactly the orders at least as good as its new price |
| `QueuePlace.SubmitRests` | src/core/OrderBook.cpp:86-111 | What is left of a limit order rests under its id at its own price, of a market order nothing, and no other order of its side moves |
| `QueuePlace.CancelDrops` | src/core/OrderBook.cpp:119-141 | After a cancel each side is what it was without that order |
| `QueuePlace.ModifyReplaces` | src/core/OrderBook.cpp:144-209 | After a modify the order stands on its side under exactly the new id, price and quantity, and all others are what they were; an unknown id changes nothing |
| `Ledger.StepConserves` | src/core/OrderBook.cpp:95-209 | One operation: resting before plus entered equals resting after plus traded plus withdrawn, per id and side |
| `Ledger.RunConserves` | src/core/OrderBook.cpp:95-209 | The same balance over whole runs, with every modify counted by its exact change |
| `Ledger.BothSidesDebited` | src/core/OrderBook.cpp:29-34 | The volume in the log leaves the opposite side, and the taker's side gains exactly what is left of a limit order |
| `Feed.FeedAgrees` | src/core/OrderBook.cpp:98-275 | After every run the prices of the last message published are the current best prices, 0 for an empty side |
| `Feed.MessagesAreTops` | src/core/OrderBook.cpp:245-275 | Every message of a run showed the book at the moment it was handed over, in that order: price and volume of each side are those at its first order, the volume modulo 2^32, or 0 and 0 when it is empty |
| `Staleness.QuantitiesAgreeIff` | src/core/OrderBook.cpp:103-116 | The last message, current before an operation, is current after it if and only if the operation passes a test on the book and itself: which part of the opposite best level it takes, whether it joins its own, what a modify does to a best level that stays |
| `Staleness.CurrentThroughoutIff` | src/core/OrderBook.cpp:98-209 | The last message is the top of the book after every prefix of a run if and only if every operation passes the test at its moment |
| `Quantities.PositiveThroughoutIff` | src/core/OrderBook.cpp:29-48 | Throughout a run every resting order and every trade is for more than 0 if and only if no modify gives a live order quantity 0 |
| `Quantities.SessionPositiveIff` | src/gateway/OrderEntryGateway.h:97-134 | Throughout a session the same, if and only if no accepted replacement of a live order was sent with a multiple of 2^32 as its quantity |
| `Quantities.TradeOfNothing` | src/core/OrderBook.cpp:156-177 | A run that logs a trade of 0 shares |
| `Quantities.EmptyOrdersPass` | src/risk/Riskengine.h:94-112 | A market order and a replacement for 2^32 shares that pass the gate and arrive as 0 |
| `Feed.QuantitiesCanBeStale` | src/core/OrderBook.cpp:114-116 | A run after which the published ask quantity is 10 and the real one 6 |
| `Levels.FlatInsert` | src/core/OrderBook.cpp:86-93 | Appending to the level of its price, new or not, is price-time insertion into the flat side |
| `Levels.FlatSplice` | src/core/OrderBook.cpp:131-137 | Replacing or removing an order within its level is replacing or removing it in the flat side |
| `Nodes.PriceLevel.AppendOrder` | src/core/types.h:40-50 | A proper doubly linked list stays one, the order is last in it, and the running volume stays the 32-bit sum |
| `Nodes.PriceLevel.RemoveOrder` | src/core/types.h:52-62 | Unlinking from any place leaves a proper list of the others in order, the volume without the order, and the node with no links |
| `Nodes.PriceLevel.Reduce` | src/core/OrderBook.cpp:162-172 | Lowering a quantity in place lowers the volume with it and moves nobody |
| `Nodes.OrderPool.Acquire` | src/core/MemoryPool.h:27-47 | A node that was not handed out is: the last free one, or a new one when none is free, with the given terms and no links |
| `Nodes.OrderPool.Release` | src/core/MemoryPool.h:49-53 | A handed-out node becomes the last free one; no node is free twice |
| `OrderBooks.OrderBook.TradeWithHead` | src/core/OrderBook.cpp:28-48 | One trade with the head: quantities, volume and log change by the same amount, and a filled node leaves level and index for the pool |
| `OrderBooks.OrderBook.SweepLevel` | src/core/OrderBook.cpp:27-48 | The inner loop ends with a filled taker or an empty level, on the course of greedy consumption |
| `OrderBooks.OrderBook.MatchBuyOrder` | src/core/OrderBook.cpp:20-51 | The loops terminate with the residual, the asks and the trades of greedy consumption of the flat asks; bids and nodes in hand are untouched |
| `OrderBooks.OrderBook.MatchSellOrder` | src/core/OrderBook.cpp:53-84 | The same of the bids |
| `OrderBooks.OrderBook.AddOrder` | src/core/OrderBook.cpp:86-93 | The order is last in the level of its price; index and levels still agree if and only if its id was not live |
| `OrderBooks.OrderBook.PublishBBO` | src/core/OrderBook.cpp:245-275 | With a publisher attached one message is handed to the ring that shows the abstract book field by field, and nothing else changes |
| `OrderBooks.OrderBook.ProcessOrder` | src/core/OrderBook.cpp:95-122 | Book, log and feed become those of the abstract submit; the invariant holds again if and only if the order does not rest under a live id, and then only the caller's node changed hands |
| `OrderBooks.OrderBook.CancelOrder` | src/core/OrderBook.cpp:124-141 | An unknown id changes nothing; a live order disappears from level, index and abstract book, its node is free, and the top is published |
| `OrderBooks.OrderBook.ModifyOrder` | src/core/OrderBook.cpp:143-209 | Book and feed become those of the abstract modify; the invariant holds again if and only if the new id was the old one or not live |
| `OrderBooks.OrderBook.AcquireNode` | src/core/MemoryPool.h:27-47 | Taking a node, even when the pool grows, leaves the book as it was and puts the node in nobody else's hand |
| `OrderBooks.OrderBook.IndexAgrees` | src/core/OrderBook.h:18-20 | The index knows an id if and only if the abstract book has it, and points to a node of the side it is on |
| `OrderBooks.OrderBook.ModelWf` | src/core/OrderBook.h:18-20 | A valid heap book always stands for a well-formed abstract one |
| `OrderBooks.OrderBook.TopAgrees` | src/core/OrderBook.h:47-48 | `begin()` of the maps is the front of the abstract sides, and its volume the 32-bit sum at that price |
| `OrderBooks.OrderBook.OnePlace` | src/core/MemoryPool.h:27-53 | Every node ever allocated is free, in the level of its own side and price, or in a caller's hand, and only one of these |
| `OrderBooks.OrderBook.LevelVolume` | src/core/types.h:49-59 | A level's running volume is its orders' sum modulo 2^32, and the sum itself if and only if it fits |
| `Ring.StepKeepsInv` | src/core/RingBuffer.h:17-50 | Every atomic step of either thread keeps the ring invariant |
| `Ring.RingIsSafe` | src/core/RingBuffer.h:17-50 | In every interleaving with stale loads: popped is a prefix of accepted, at most Size - 1 items wait, the slot written is not the slot read, and with a spinning producer nothing is lost or duplicated |
| `Ring.PushSteps` | src/marketdata/RingBufferBBO.h:17-34 | A push run alone is its four steps and is refused exactly when the ring looks full; a caller that spins keeps the item then, one that drops loses it |
| `MarketFeed.ReaderIsNeverMisledIff` | src/marketdata/RingBufferBBO.h:17-49 | For every run and ring size: after every interleaving in which all messages were offered and all that got through were read, the last one read shows the book's best prices, if and only if all messages from the one that fills the ring on show the same prices as the last |
| `MarketFeed.OffersCanMislead` | src/core/OrderBook.cpp:274 | Whatever the size of the ring, as many improving offers as it has slots can leave the reader with a price the book no longer has, and one fewer cannot |
| `MarketFeed.FeedRingCanMislead` | src/marketdata/RingBufferBBO.h:6-34 | On the ring of the market-data thread, 1024 offers can |
| `Ring.RingBuffer.Push` | src/core/RingBuffer.h:17-34 | Accepted if and only if fewer than Size - 1 items wait as far as the producer has seen; an accepted item is the newest |
| `Ring.RingBuffer.Pop` | src/core/RingBuffer.h:37-50 | Empty-handed if and only if no push has been seen that is not popped; otherwise the oldest waiting item |
| `Fix.ParseFastInt` | src/gateway/FixParser.h:26-32 | The positional value of the characters |
| `Fix.AnyCharacterCounts` | src/gateway/FixParser.h:26-32 | Every character counts as its distance from '0', a digit or not |
| `Fix.IdsCanCollide` | src/gateway/FixParser.h:26-32 | The id ":" is the number 10, as is "10" |
| `Fix.ParseFastDecimal` | src/gateway/FixParser.h:35-59 | The scan with at most four decimals, padded to four |
| `Fix.DecimalMeaning` | src/gateway/FixParser.h:35-59 | A price, of whatever characters, is what stands before the first point followed by exactly four characters of what stands after it, other points skipped, padded with zeros or cut off |
| `Fix.PriceRoundTrip` | src/gateway/FixParser.h:35-59 | A printed four-decimal price reads back as itself |
| `Fix.ParseFixMessage` | src/gateway/FixParser.cpp:3-56 | The pointer loop computes the recursive parse, including the failure on a field without '=' |
| `Fix.ParsePrint` | src/gateway/FixParser.cpp:8-55 | Parsing printed fields assigns exactly those fields in order |
| `Fix.ParseStops` | src/gateway/FixParser.cpp:12-20 | Behind printed fields a rest without '=' makes the parse fail, with the fields before it assigned |
| `Fix.TagsWrap` | src/gateway/FixParser.cpp:14-26 | Tags 2^32 apart are parsed as the same field |
| `Fix.FoldIsLast` | src/gateway/FixParser.cpp:28-51 | Each field of the message is the last one sent with its tag or the reset value; unknown tags contribute nothing |
| `Fix.FieldOrderIrrelevant` | src/gateway/FixParser.cpp:28-51 | Field order does not matter when no tag repeats |
| `Framing.Connection.OnRead` | apps/main.cpp:95-110 | The erase-and-reparse loop terminates, leaves the incomplete tail in the accumulator, and queues the messages of the frames |
| `Framing.ChunkIndependence` | apps/main.cpp:86-111 | However the stream is cut into reads, frames and leftover are those of the whole stream |
| `Framing.FramesPartition` | apps/main.cpp:97-110 | Frames and leftover together are the bytes received, and each frame is exactly one frame |
| `Framing.EveryFrameIsAMessage` | apps/main.cpp:97-110 | Every frame cut off a stream parses, whatever its bytes, so there is one message for each frame, in order |
| `RoundTrip.FieldsReceived` | apps/main.cpp:97-110 | Any stream of printed fields is received as one message per field that can be taken for the trailer, made of the fields since the one before; the rest waits |
| `RoundTrip.MessageIsOneFrameIff` | apps/main.cpp:98-104 | A printed message is exactly one frame, whatever follows it, if and only if no tag of it ends in 10 and no value holds "10=" |
| `RoundTrip.MinQtyEndsFrame` | apps/main.cpp:98-104 | A message with field 110 is cut after 6 of its 13 bytes |
| `RoundTrip.StreamRoundTripIff` | apps/main.cpp:97-110 | A list of printed messages, as one stream, is framed and parsed into the same list if and only if no field of any of them can be taken for the trailer; nothing is left over |
| `RoundTrip.WireRoundTripIff` | src/gateway/FixParser.cpp:3-56 | The same end to end for messages with decimal quantities and prices, read in any chunks: if and only if no id holds "10=" |
| `RateLimit.SlidingBound` | src/risk/Riskengine.h:167-184 | Any half-open interval as long as the window holds at most twice the limit of passed messages |
| `RateLimit.SlidingBoundOpened` | src/risk/Riskengine.h:167-184 | Once windows are opened by messages, at most twice the limit less one |
| `RateLimit.BoundIsTight` | src/risk/Riskengine.h:167-184 | For every limit and every window of at least two nanoseconds a run that reaches twice the limit |
| `RateLimit.OpenedBoundIsTight` | src/risk/Riskengine.h:167-184 | For every limit, and every window of at least two nanoseconds of which two fit the clock, a run that reaches twice the limit less one after a window was opened by a message |
| `RateLimit.LimitHoldsIff` | src/risk/Riskengine.h:167-184 | Which configurations keep the limit in every interval as long as the window, of every run: exactly those with limit 0 or a window of at most one nanosecond |
| `RateLimit.WindowKeptIff` | src/risk/Riskengine.h:167-184 | However the messages of one fresh window are spread over it, the limit holds if and only if fewer than 2^32 arrive |
| `RateLimit.BackwardsAllPass` | src/risk/Riskengine.h:167-184 | With a clock that goes back there is no bound: any number of messages, each read one nanosecond before the last, pass within as many nanoseconds |
| `Risk.AcceptedIff` | src/risk/Riskengine.h:94-162 | Exactly which messages pass the checks before the limiter, from the best bid and ask: the collar is around their midpoint, around the one there is, or absent, of either sign and in exact arithmetic although the code divides twice |
| `Risk.VerdictIs` | src/risk/Riskengine.h:94-162 | Which of the verdicts a message gets before the limiter: that of the first limit it breaks |
| `Risk.SpreadPasses` | src/risk/Riskengine.h:137-158 | A collar at least as wide as half the spread, rounded up, passes every price from best bid to best ask |
| `Risk.RiskEngine.CheckOrder` | src/risk/Riskengine.h:197-236 | The verdict is the first failing check's; the limiter counts only messages that pass the others; the counter of the verdict, and no other, records the message |
| `Risk.RiskEngine.CheckRateLimit` | src/risk/Riskengine.h:167-184 | The window moves as the counting function says and the verdict compares the new count |
| `Gateway.OrderEntryGateway.HandleNewOrderSingle` | src/gateway/OrderEntryGateway.h:35-85 | A rejected message leaves the book alone; an accepted one submits the order of its fields: id of tag 11 in 64 bits, price, quantity in 32 bits, buy if tag 54 is '1', market if tag 40 is '1'; no node is lost |
| `Gateway.FirstOrder` | src/gateway/OrderEntryGateway.h:65-85 | On an empty book an accepted limit order rests whole under its id, price and cut quantity, on the bids exactly if its side is '1'; a market order does nothing |
| `Gateway.OrderEntryGateway.HandleCancelRequest` | src/gateway/OrderEntryGateway.h:87-95 | The order named by tag 11 is gone and every other one in its place, past the risk gate |
| `Gateway.OrderEntryGateway.HandleCancelReplace` | src/gateway/OrderEntryGateway.h:97-134 | A rejected replacement leaves the book alone; after an accepted one the order named by tag 41 stands on its side under the id of tag 11, at exactly the price and cut quantity of the message, and every other one in its place |
| `Gateway.OrderEntryGateway.RunMatchingEngine` | apps/main.cpp:33-37 | Over any admissible stretch of messages, book, log and feed end as the accepted operations run in order leave them, and no node is lost |
| `Session.FreshSessionIsAdmissible` | src/core/OrderBook.cpp:86-87 | Messages with ids that are new and distinct are all a session needs for every operation to be admissible in its turn |
| `Session.SessionRespectsSize` | src/risk/Riskengine.h:107-112 | Whatever is sent, no operation brings more than the configured maximum to the book |
| `Session.SessionRateBound` | src/risk/Riskengine.h:167-184 | At most twice the limit of new orders and replacements of a session reach the book in any interval as long as the window |
| `Session.PlainSessionUncrossed` | src/core/OrderBook.cpp:95-141 | Sessions without cancel/replace messages never cross the book |
| `Pipeline.StreamToBook` | apps/main.cpp:28-111 | For every chunking and every interleaving, what the engine has taken, done and traded is a first part of one thread working off the stream in order, and all of it once the ring has drained |
| `Pipeline.AcceptedOpsConcat` | src/gateway/OrderEntryGateway.h:35-134 | A session continues from where its first part left limiter window and book |
| `Pnl.AccountingAgrees` | src/strategy/Marketmaker.h:136-182 | Realized plus unrealized PnL is the plain mark-to-market of the fills, for every fill sequence and mark, through adding, reducing, flattening and flipping |
| `Pnl.FillOrderIrrelevant` | src/strategy/Marketmaker.h:136-182 | Total PnL and position do not depend on the order of the fills |
| `Pnl.WhatFillsDo` | src/strategy/Marketmaker.h:129-171 | What opening, adding, reducing, flattening and flipping do to realized PnL and average price, each written out |
| `Pnl.AverageCost` | src/strategy/Marketmaker.h:129-171 | After every fill sequence realized PnL is the sum over the closed quantities of the closing price less their average cost, and an open position stands at its average cost |
| `Inventory.SessionRealized` | src/strategy/Marketmaker.h:107-171 | The same for a whole session and the maker's own fills among the scanned trades |
| `Quoting.LimitsAfterRun` | src/strategy/Marketmaker.h:107-125 | Whatever others do between two ticks, the limits hold whether or not the fills have been noticed |
| `Quoting.LimitsAfterQuote` | src/strategy/Marketmaker.h:249-286 | A quote that fits the room left keeps the limits even if it trades while it is placed |
| `Quoting.RunAttributed` | src/strategy/Marketmaker.h:107-125 | Between two ticks every trade of the maker is under one of its two current ids |
| `Inventory.BetweenTicks` | src/strategy/Marketmaker.h:107-125 | After any run of the others limits and ids are in order, and a scan finds exactly the fills of the maker's own orders |
| `Inventory.TickFits` | src/strategy/Marketmaker.h:221-286 | A tick sends only admissible operations and leaves limits and ids in order, in every branch |
| `Inventory.PositionBound` | src/strategy/Marketmaker.h:249-286 | After every round of every session the tracked position, alone and with what is left of either quote, is within the limit |
| `Inventory.ShutdownClears` | src/strategy/Marketmaker.h:183-288 | Shutting down after any session leaves no order of the maker on the book |
| `Inventory.TruePosition` | src/strategy/Marketmaker.h:227-286 | What the maker really bought less sold is what it tracked plus its share of the trades never scanned |
| `Unseen.HeardIff` | src/core/OrderBook.cpp:27-48 | A synthetic order trades with the maker if and only if it reaches one of its quotes and is for more than stands before it |
| `Unseen.RequoteTrades` | src/strategy/Marketmaker.h:277-285 | A requote trades while it is placed if and only if a price changed and a new quote reaches the best price of the others, or the new bid |
| `Unseen.RoundMissesIff` | src/strategy/Marketmaker.h:221-286 | A round has a trade of the maker that it never looks at if and only if the synthetic order hits it and leaves the book one-sided, or its requote crosses |
| `Unseen.AccountedIff` | src/strategy/Marketmaker.h:107-125 | The account has taken in every fill of the maker's own orders, in order, if and only if no round overlooks anything |
| `Unseen.TruePositionBound` | src/strategy/Marketmaker.h:254-275 | In a session that overlooks nothing, what the maker really holds after every round is what it tracks, and within the limit |
| `Drift.TruePositionDrift` | src/strategy/Marketmaker.h:221-286 | After any number of rounds of any session of a new maker, what it really holds is within the limit and one quote more for each of these rounds in which it overlooked something |
| `Inventory.SessionPnl` | src/strategy/Marketmaker.h:136-182 | The reported total PnL after a session is the mark-to-market of the maker's own fills among the scanned trades |
| `TrackedPosition.TruePositionCanExceed` | src/strategy/Marketmaker.h:227-286 | A session of a new maker with a limit of 50, after which it is short of 100 and tracks 50 |
| `TrackedPosition.DriftIsReached` | src/strategy/Marketmaker.h:227-286 | That session overlooks one round and ends exactly one quote beyond the limit |
| `QuotePolicy.NoStaleQuotes` | src/strategy/Marketmaker.h:249-286 | After every two-sided round every order of a living maker on the book is half a spread from that round's midpoint, shifted by its position, although quotes are replaced only when a price changes |
| `QuotePolicy.NewMakerSession` | src/strategy/Marketmaker.h:221-286 | In every session of a new maker, on any book of the others, the tracked position keeps the limit and no round leaves a stale quote |
| `QuotePolicy.KilledIff` | src/strategy/Marketmaker.h:234-247 | The maker is killed in exactly the two-sided rounds whose total loss at the midpoint exceeds the limit, and then none of its orders is live |
| `QuotePolicy.KilledByLoss` | src/strategy/Marketmaker.h:221-247 | The same from the trades alone, for a maker that starts flat: it is killed in exactly the two-sided rounds in which its scanned trades, valued at the midpoint in whole price units, add up to a loss beyond the limit |
| `QuotePolicy.TickSends` | src/strategy/Marketmaker.h:249-286 | Exactly what a two-sided tick that leaves the maker alive sends, from best prices, position and limit: nothing if both prices stand and no quote has to go; otherwise the cancels, then a bid exactly if position < maxPosition, its price and the quote size are positive, for the smaller of room and quote size, and the mirror image for the ask |
| `QuotePolicy.TickStops` | src/strategy/Marketmaker.h:221-247 | Nothing is sent on a one-sided book or by a dead maker, and only the cancels of its quotes by one that is killed |
| `SelfTrades.NoSelfTrades` | src/strategy/Marketmaker.h:244-286 | With a positive half spread no trade of any session has the maker on both sides |
| `SelfTrades.SelfTradeIff` | src/strategy/Marketmaker.h:221-286 | Some session of a new maker trades with itself if and only if the configuration lets it quote at all and the half spread is not positive |
| `MarketMaking.MarketMaker.UpdatePosition` | src/strategy/Marketmaker.h:136-171 | Position, realized PnL and average price become those of the accounting function: the part of the fill that closes leaves at average cost and is realized, the rest opens at the fill's price |
| `MarketMaking.MarketMaker.ProcessFills` | src/strategy/Marketmaker.h:107-125 | The account takes in every trade since the start index under a current id, in order |
| `MarketMaking.MarketMaker.CancelExistingQuotes` | src/strategy/Marketmaker.h:183-194 | Both quotes are cancelled on the heap book and forgotten |
| `MarketMaking.MarketMaker.PlaceQuote` | src/strategy/Marketmaker.h:196-209 | One order under the next id is submitted and becomes the quote of its side |
| `MarketMaking.MarketMaker.OnTick` | src/strategy/Marketmaker.h:221-286 | Maker, book, log and feed move as the tick function says, in every branch |
| `MarketMaking.Simulate` | apps/Simulator.cpp:115-147 | The simulator's loop and shutdown leave positions, log, maker and book as the session function says |

## Left out

- I/O: sockets, the UDP publisher, thread start-up, the Python scripts and the benchmarks.
- Reporting: `LatencyTracker`, `display`, `printReport`, `printMarketStats`, the PnL history and its CSV export, VWAP, `totalFills` and the other analytics counters.
- Clocks: timestamps of trades and the limiter's reading are inputs; all trades of one call carry the same one, as in the source. The timestamp of a market-data message is not modelled.
- Views into the accumulator: the ids on a queued message are copied values here. In the source they point into a buffer that is erased right after the push; nothing is claimed about that memory.
- Memory model: an index load may be stale but never goes back, and a slot is complete once its index is published; weaker behaviours, cache alignment and `% Size` as a bit mask are not modelled.
- Widths: prices, notional values and the collar product are unbounded integers, as are `parseFastInt` results; overflow of signed 64-bit arithmetic is not modelled. Quantities, level volumes, the message count, the narrowing of a tag and the cast of an id are modelled with their widths.
- Characters: bytes of 0x80 and above are not modelled as negative `char` values.
- Floating point: PnL and average price are exact reals; nothing is claimed about rounding in `double`.
- `RateLimit.SlidingBound`: assumes a clock that does not go back and fewer than 2^32 counted messages in a window; `RateLimit.BackwardsAllPass` and `RateLimit.WindowKeptIff` show that both are needed.
- `Gateway.OrderEntryGateway.RunMatchingEngine`: a finite stretch of the endless polling loop; that the ring delivers the messages in order is `Ring.RingIsSafe`, and `Pipeline.StreamToBook` joins the two.
- `Unseen.TruePositionBound`: is not an equivalence, because missed fills can cancel out; what holds exactly when nothing is overlooked is `Unseen.AccountedIff`, and what holds in any case `Drift.TruePositionDrift`.
- `MarketMaking.Simulate`: the random order generator is an arbitrary list of new orders and cancels; seeding the book is part of the state it starts from.
- `Gateway.OrderEntryGateway`: handlers reach the pool through the book, which shares it; the reference a caller could keep to a processed node is not modelled.
- Run-time changes to the risk configuration, and the printing of the statistics.
- The destructor of the pool, and its initial size: any valid pool is a possible start.
