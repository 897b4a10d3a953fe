# Market-data pipeline: model and proofs

A Dafny model of a market-data pipeline for the Binance spot exchange. A feeder process parses the
exchange's JSON messages and writes records into lock-free rings; one trader process per symbol
keeps a local order book and a window of recent trades and sends orders; an executor measures
latencies. The theorems meet in `EndToEnd.TraderFollowsTheWire`: from the exchange's documents,
through the parser, a run of the ring and the main loop, a decision is taken on the exchange's best
levels, on the rows that deletions have left trustworthy, if and only if nothing is missing in the
book: the last depth event read is complete, or stale, or was answered with a snapshot, or every
change of it still to come is shown by those rows or ranks below them. Every order is tied to the
pass that makes it, and is right on the exchange when nothing is missing in that pass.

## How it is organised

| Files | What they hold |
|---|---|
| `Words`, `MarketData`, `Json` | 64-bit words with explicit wrap-around, the records, JSON values and the reader events they produce (RFC 8259, sections 4 and 5) |
| `MaskedIncrement`, `SpscProtocol`, `SpscRingBuffer` | the ring: index arithmetic, every interleaving of its two threads, and the ring as a bounded queue |
| `PriceLevels`, `OrderBook` | a side of a book as an unbounded map, the bounded ladder that approximates it, and the in-place ladder |
| `BookSync`, `TraderBook`, `PendingChanges`, `BookProcessor` | the exchange as a numbered history of changes, the replica that follows it, the bounded book on top, what it shows inside an event, and the loop that feeds it |
| `FixedDecimal` | exact fixed-point decimal parsing |
| `DepthHandler`, `SnapshotHandler`, `CombinedHandler` and the `...SaxHandler` files | the parsers as state machines with a denotation, and as the objects that are reused from message to message |
| `EventMeaning` | what any document of the combined stream means: its data objects, the stream names in force, and what the handlers make of them |
| `TradeFlowWindow`, `Strategy`, `LatencyPipeline` | the trade window, the trading rule, and the stamps carried from feeder to executor |
| `Trader`, `OrdersOnExchange` | the trader's main loop, and what its decisions and orders are worth on the exchange |
| `WireFormat`, `EndToEnd` | documents as the exchange writes them, the round trips, and the end-to-end theorem |

Each component is stated twice: once as values (a queue, a map, a JSON value, a history) and once as
the code's own form, a class whose methods update fields and arrays in place or a step system with
one program counter a thread. The contract of every method equates its effect with the value
version; the lemmas say what the value version is worth.

## Findings

- **The trader can decide on half an event.** `ProcessUpdate` returns true when the ring is seen
  empty inside an event; the book then has the event's id and part of its levels. In
  `OrdersOnExchange.OrderInMidEvent` the trader buys at 3 while the exchange's best ask is 2.
  `PendingChanges.RestExactly` says exactly when such a book is right, in terms of the rows it shows
  and the changes still to come, and `BookProcessor.ReturnMatchesExactly` carries that through every
  run.
- **A reset of the ring can be overtaken by one write fewer than the ring's length.** With a write
  already in flight when `ResetConsumer` loads the head, `n - 1` writes started during the reset put
  the producer a lap ahead, the reset undoes the disable, and the consumer silently skips items
  (`SpscProtocol.ResetOvertaken`, for every length). The count that matters includes writes in
  flight (`ResetIsClean`), and `ResetSafeExactly` gives the exact condition.
- **A read in flight when the consumer is disabled can deliver a torn item.** In the run of
  `SpscProtocol.TornDelivery`, for every length of at least two, the read reports success. One write
  of grace is all it has (`GraceOfOneWrite`, both halves); only the last item can be affected
  (`AfterCleanReset`).
- **A snapshot older than the event that asked for it loses updates.** The update that notices the
  gap is consumed by the reset (`BookSync.OldSnapshotLosesUpdate`). `BookSync.GapEventOutcome` says,
  for every sequence of answers, exactly when the book is still right at the end of the event.
- **The ladder is exact only as deep as its losses allow.** Each removal since the snapshot costs at
  most one trustworthy row, and on no side can more removals be afforded
  (`PriceLevels.ExactnessIsTight`).
- **The dominance test multiplies wrapped 64-bit sums.** It can buy against a book that is almost all
  asks and miss one that is almost all bids (`Strategy.BuysAgainstTheBook`, `MissesTheBook`).
  `Strategy.DecidedExactly` says when it is right, book by book, and `BoundExactly` as a bound on
  quantities: exactly while eleven times the bound fits in 64 bits.
- **Two depth data objects in one message are merged**, and the second needs no event type, because
  the handler is not reset between them (`WireFormat.TwoEventsMerge`).
- **The overflow check on fraction digits never fires**: at most 18 are kept, and 18 always fit.

## Model

| member | source | states |
|---|---|---|
| MaskedIncrement.ValidLengthIsPowerOfTwo | lib/interprocess/spsc_ring_buffer.hpp:30-33 | the compile-time length check accepts exactly the powers of two |
| MaskedIncrement.IncrementIsModular | lib/interprocess/spsc_ring_buffer.hpp:28-36 | for every accepted length the masked increment is addition modulo the length |
| MaskedIncrement.SlotsAgree | lib/interprocess/spsc_ring_buffer.hpp:28-36 | within one lap two writes share a slot only if they are the same write or a full lap apart |
| SpscProtocol.StepInv | lib/interprocess/spsc_ring_buffer.hpp:51-81 | every atomic step of either thread, from any state that satisfies it, keeps the ring invariant: slots hold the last lap, counters match indexes, lag bounded while clean |
| SpscProtocol.EveryRunIsSafe | lib/interprocess/spsc_ring_buffer.hpp:51-81 | in every interleaving, while the consumer has not been disabled since an unlapped reset: lag at most the length minus one, never the same slot written and copied, and the reads are the writes in order without loss, duplication or tearing |
| SpscProtocol.DisabledExactlyWhenFull | lib/interprocess/spsc_ring_buffer.hpp:54-57 | a clean consumer is disabled by a write if and only if the ring was full at that write's tail check |
| SpscProtocol.ReadReports | lib/interprocess/spsc_ring_buffer.hpp:62-75 | in any interleaving, a read of a clean ring is let in, reports an empty ring if and only if every published write has been read, and otherwise reports and counts the oldest unread write |
| SpscProtocol.ReadsAreWaitFree | lib/interprocess/spsc_ring_buffer.hpp:62-75 | whatever the producer does, a read reports within five more of the consumer's own accesses |
| SpscProtocol.WritesAreWaitFree | lib/interprocess/spsc_ring_buffer.hpp:51-60 | whatever the consumer does, a write is published within five more of the producer's own accesses |
| SpscProtocol.GraceOfOneWrite | lib/interprocess/spsc_ring_buffer.hpp:62-75 | a copy in flight, disabled or not, takes the oldest unread item as long as no write more than a lap ahead has begun; once one has, it takes something else |
| SpscProtocol.TornDelivery | lib/interprocess/spsc_ring_buffer.hpp:62-75 | for every length of at least two, a run without a reset in which the only read, admitted before the disable, reports success with a torn item |
| SpscProtocol.DisabledUntilReset | lib/interprocess/spsc_ring_buffer.hpp:62-65 | once disabled, every read that starts later reports it until a reset; only a read already past the check may still complete |
| SpscProtocol.ResetIsClean | lib/interprocess/spsc_ring_buffer.hpp:77-81 | a reset re-establishes the invariant when fewer writes than the length, in-flight ones included, started beyond the head it loaded |
| SpscProtocol.AfterCleanReset | lib/interprocess/spsc_ring_buffer.hpp:77-81 | after a clean reset only newer items are delivered, in order; a pending disable store can end the clean period, and then the consumer is disabled and of all deliveries only the last, by the read then in flight, can be wrong |
| SpscProtocol.OutcomesAreDeliveries | lib/interprocess/spsc_ring_buffer.hpp:62-75 | between resets the successful results of the reads are exactly the deliveries, and a consumer active at the end was never told it was disabled |
| SpscProtocol.ResetSafeExactly | lib/interprocess/spsc_ring_buffer.hpp:77-81 | no continuation of a reset loses an item unnoticed if the writes past their tail check are less than a lap ahead of the loaded head, or the disabling store is pending on a ring that looks empty; and only if, when the items written are all different |
| SpscProtocol.ResetOvertaken | lib/interprocess/spsc_ring_buffer.hpp:77-81 | for every length, a run in which only length minus one writes start during a reset and the active consumer then skips items without notice |
| SpscRingBuffer.SpscRingBuffer.constructor | lib/interprocess/spsc_ring_buffer.hpp:41-43 | a new ring is an empty, live queue |
| SpscRingBuffer.SpscRingBuffer.Write | lib/interprocess/spsc_ring_buffer.hpp:51-60 | appends to a queue of capacity length minus one; a full or overflowed queue becomes or stays overflowed |
| SpscRingBuffer.SpscRingBuffer.Read | lib/interprocess/spsc_ring_buffer.hpp:62-75 | disabled if and only if the queue has overflowed, empty if and only if nothing is pending, otherwise the oldest item, which leaves the queue |
| SpscRingBuffer.SpscRingBuffer.ResetConsumer | lib/interprocess/spsc_ring_buffer.hpp:77-81 | leaves an empty live queue whatever was there |
| SpscRingBuffer.EveryCallSequenceIsFifo | lib/interprocess/spsc_ring_buffer.hpp:41-81 | over any calls on a new ring: items taken since the last reset are the first items written since, and the queue is overflowed if and only if more than the capacity is unread |
| SpscRingBuffer.NextReadReports | lib/interprocess/spsc_ring_buffer.hpp:62-75 | after any calls on a new ring, told by what was written and taken since the latest reset: the next read reports a disabled consumer if and only if more than a ring's worth was left unread, an empty ring if and only if all was taken, and else the oldest item not taken |
| PriceLevels.EditSetsLevel | lib/local_order_book.hpp:33-67 | remove, replace or insert at the lower bound is setting or deleting the level in the map of all levels |
| PriceLevels.EditSorted | lib/local_order_book.hpp:33-67 | the edit keeps strict price order in both side orders and brings in no price but the updated one |
| PriceLevels.UpdateRowsSplices | lib/local_order_book.hpp:33-67 | keeping the best levels of the updated map is splicing at the lower bound and cutting at the depth: only the worst row is ever evicted |
| PriceLevels.TopOfSorted | lib/local_order_book.hpp:169-185 | the first rows of a sorted list are the best levels of the map it lists |
| PriceLevels.TopByPrice | lib/local_order_book.hpp:69-75 | the best levels are the highest bids and the lowest asks: in order of price, and every level left out is outbid by a full list |
| PriceLevels.FirstIsHighestOrLowest | lib/local_order_book.hpp:69-75 | the first row holds the highest bid of the side, or its lowest ask |
| PriceLevels.UpdateByPrice | lib/local_order_book.hpp:33-67 | one update, on rows and prices: falling bids or rising asks, only the new level and old rows of other prices, and none of these missing unless a full ladder outbids it |
| PriceLevels.MissingIsWorse | lib/local_order_book.hpp:91-116 | a level that is not among the best `d` is worse than `d` others |
| PriceLevels.LostLevelsAreWorse | lib/local_order_book.hpp:91-116 | the horizon: every level an exact ladder has lost is worse than all the rows known to be exact |
| PriceLevels.UpdateKeepsExact | lib/local_order_book.hpp:33-67 | one update costs at most one exact row, and only when it deletes; every row keeps showing the map's quantity |
| PriceLevels.RemovalsCostOneEach | lib/local_order_book.hpp:33-67 | over any run each removal costs at most one exact row |
| PriceLevels.LadderExactness | lib/local_order_book.hpp:33-67 | from a snapshot of the true best `d` levels, after any updates, the rows counted as exact (absent levels cost nothing, insertions restore) are the true best levels, and no row ever shows a wrong quantity |
| PriceLevels.ExactnessIsTight | lib/local_order_book.hpp:33-67 | on every side, the first `k` rows survive every run with `j` removals if and only if `j + k <= d` |
| PriceLevels.SameTopExactly | lib/local_order_book.hpp:169-185 | the best levels of two sides agree if and only if the best rows of one show every level of the other or it ranks below them |
| OrderBook.OrderBookSide.Init | lib/local_order_book.hpp:22-31 | the rows are the given columns cut at the depth |
| OrderBook.OrderBookSide.FindLowerBound | lib/local_order_book.hpp:34-55 | the halving search stops at the first row not better than the price |
| OrderBook.OrderBookSide.RemoveAt | lib/local_order_book.hpp:82-89 | the rows without the one at the index |
| OrderBook.OrderBookSide.InsertAt | lib/local_order_book.hpp:91-116 | the rows with the new one in place, cut at the depth; unchanged for a position past the end |
| OrderBook.OrderBookSide.Update | lib/local_order_book.hpp:33-67 | binary search and in-place shifts leave exactly the best `Depth` levels of the updated map; bids fall and asks rise from row to row |
| OrderBook.OrderBookSide.GetBest | lib/local_order_book.hpp:69-75 | the highest bid or the lowest ask of the rows, or a row of zeros on an empty side |
| OrderBook.OrderBookSide.GetTop | lib/local_order_book.hpp:169-185 | the first rows, at most as many as asked for |
| OrderBook.OrderBook.Init | lib/local_order_book.hpp:125-137 | both sides and the id come from the snapshot |
| OrderBook.OrderBook.UpdateBid | lib/local_order_book.hpp:139-142 | the bids become the best bids of the updated map, the asks stay; prices fall from row to row |
| OrderBook.OrderBook.UpdateAsk | lib/local_order_book.hpp:144-147 | the asks become the best asks of the updated map, the bids stay; prices rise from row to row |
| MarketData.UpdatesReassemble | lib/binance/parser.cpp:209-234 | nothing of an event is lost in its updates: header and both sides can be put together again, and exactly the last update says that no more follow |
| BookSync.BookHoldsLastChange | trader/trader.cpp:105-112 | the reference book holds at each level what the last change to it set, and nothing if there was none |
| BookSync.EventAdvancesBook | trader/trader.cpp:105-112 | an event with `U <= L + 1 <= u + 1` takes the exchange's book at `L` to its book at `u`, overlap included |
| BookSync.FinalChangesAreIdempotent | trader/trader.cpp:105-112 | applying again what the book already holds changes nothing |
| BookSync.EventKeepsSync | trader/trader.cpp:94-113 | one event, in sequence, stale or after a gap (then even a part of it), leaves the replica equal to the exchange's book at its own last id, which becomes `max(L, u)` or the snapshot's id |
| BookSync.RunKeepsSync | trader/trader.cpp:94-137 | the same over any run of events and gaps whose snapshots are no older than their triggering events; the last id never decreases |
| BookSync.PartialEventExactly | trader/trader.cpp:94-113 | an overlapping event of which only a part is applied gives the exchange's book if and only if the book held the other changes already, save those of levels listed again |
| BookSync.MidEventExactly | trader/trader.cpp:70-113 | in the middle of an event, whole or cut, the unbounded replica is the exchange's book at its id if and only if the event is stale or was answered by a fresh snapshot, or the book held the updates still to come, save those of levels listed already |
| BookSync.GapEventOutcome | trader/trader.cpp:94-137 | after an event that shows a gap, whatever snapshots it is answered with, the replica is the exchange's book if and only if resets used up the whole event, or the last snapshot reaches its end, or that snapshot held the updates used up, save those of levels listed again |
| BookSync.OldSnapshotLosesUpdate | trader/trader.cpp:94-104 | a concrete event and snapshot after which a level of the exchange is missing |
| TraderBook.UpdatesKeepTracking | trader/trader.cpp:94-137 | after any updates and snapshots, at event boundaries or not, the bounded book agrees with the unbounded replica on its trusted rows |
| TraderBook.TrustIsDepthLessLosses | trader/trader.cpp:94-137 | each deletion since the last snapshot costs at most one trusted row of its side |
| TraderBook.TraderBookIsExchangeBook | trader/trader.cpp:94-137 | at event boundaries, over any events and gaps, the first event possibly cut, the trusted rows are the exchange's best levels |
| PendingChanges.RestExactly | trader/trader.cpp:70-113 | inside an overlapping event the bounded book shows the exchange's best levels at the event's id if and only if its trusted rows show every change still to come or the change ranks below them |
| BookProcessor.TimestampHandler.Update | trader/trader.cpp:44-48 | separate maxima of the feeder's stamps and the time of the last read |
| BookProcessor.CallStampsLatest | trader/trader.cpp:70-87 | after every call the feeder's stamps are the greatest of all records read so far, and the reading time is the last one's |
| BookProcessor.OrderBookProcessor.ResetSnapshot | trader/trader.cpp:115-137 | replaces the whole book by the next usable snapshot, or fails and keeps it |
| BookProcessor.OrderBookProcessor.Apply | trader/trader.cpp:94-113 | the gap, stale and current branches, on the book in place |
| BookProcessor.OrderBookProcessor.ProcessUpdate | trader/trader.cpp:70-87 | the do-while loop does what reading and applying until a boundary, an empty ring or a failure does |
| BookProcessor.OneCallPerEvent | trader/trader.cpp:70-87 | with the whole event next in the ring and every update applicable, one call consumes exactly that event |
| BookProcessor.TrueOnlyAtBoundary | trader/trader.cpp:70-87 | a call returns true only at an event boundary or with the ring seen empty |
| BookProcessor.CallReaches | trader/trader.cpp:70-87 | every successful call applies exactly the updates it reads, in order |
| BookProcessor.CallFails | trader/trader.cpp:70-87 | a call fails only at a disabled ring, or at an update that shows a gap when no usable snapshot is to be had, with all updates before it applied |
| BookProcessor.LoopAppliesAll | trader/trader.cpp:294-314 | however often the ring is seen empty in between, the main loop applies every update once, in order |
| BookProcessor.SyncedExactly | trader/trader.cpp:70-137 | over any run, after any number of updates, the unbounded replica is the exchange's book at its id if and only if nothing that is pending is news |
| BookProcessor.ReturnMatchesExactly | trader/trader.cpp:70-87 | at every return, inside an event or at its end, the trusted rows are the exchange's best levels if and only if no change still to come is missing among them; at the end of an event none is |
| FixedDecimal.ScaledIsFloor | lib/binance/parser.cpp:101-103 | the reference value is the floor of the number times ten to the places |
| FixedDecimal.ScaledIsAssembled | lib/binance/parser.cpp:149-154 | that floor is the integer digits and the kept fraction digits padded with zeros |
| FixedDecimal.Assemble | lib/binance/parser.cpp:68-99 | succeeds if and only if the exact sum fits in 64 bits, and returns it |
| FixedDecimal.ScanDigit | lib/binance/parser.cpp:118-137 | one digit keeps the accumulators describing the characters seen; it is refused only when the number cannot be represented |
| FixedDecimal.ParseFixedDecimalString | lib/binance/parser.cpp:104-155 | exact and complete: succeeds if and only if the string is a decimal whose scaled floor fits in 64 bits, and returns that floor |
| FixedDecimal.RenderedParsesBack | lib/binance/parser.cpp:104-155 | printing any 64-bit value and parsing it gives the value back |
| DepthHandler.MachineComputesMeaning | lib/binance/parser.cpp:236-453 | for every document the state machine accepts exactly what the denotation accepts and has buffered exactly its message: per side the levels before the first bad row, rejected if and only if a structural rule fails or a side exceeds 5000 levels |
| DepthHandler.SideRun | lib/binance/parser.cpp:268-334 | a whole side array, from any state the machine can be in between members |
| DepthSaxHandler.DepthSaxHandler.Reset | lib/binance/parser.cpp:192-207 | the initial state, whatever levels and row buffer were left behind |
| DepthSaxHandler.DepthSaxHandler.AppendLevel | lib/binance/parser.cpp:297-312 | adds the level to the current side, or refuses at the limit and changes nothing |
| DepthSaxHandler.DepthSaxHandler.Handle | lib/binance/parser.cpp:236-453 | one event does in place what the state machine does |
| DepthSaxHandler.DepthSaxHandler.Release | lib/binance/parser.cpp:209-234 | the two loops release exactly the framed updates of the buffered message |
| DepthSaxHandler.DepthSaxHandler.ParseDepthEvent | lib/binance/parser.cpp:1109-1124 | acceptance and released updates depend on the document alone, whatever the handler processed before; a rejected document releases nothing |
| SnapshotHandler.SideRun | lib/binance/parser.cpp:711-781 | a whole side array: kept levels capped at the book depth, closed for the rest of the document by a bad level, a leftover string dropped |
| SnapshotHandler.MachineComputesMeaning | lib/binance/parser.cpp:679-874 | for every object document the machine accepts exactly what has a meaning and keeps exactly that snapshot |
| SnapshotSaxHandler.SnapshotSaxHandler.Reset | lib/binance/parser.cpp:660-671 | the initial state, whatever was left behind |
| SnapshotSaxHandler.SnapshotSaxHandler.Handle | lib/binance/parser.cpp:679-874 | one event does in place what the state machine does |
| SnapshotSaxHandler.SnapshotSaxHandler.ParseOrderBookSnapshot | lib/binance/parser.cpp:1143-1161 | the reply depends on the document alone |
| EventMeaning.ParsedEventIsMeaning | lib/binance/parser.cpp:891-1105 | for every document the wrapper accepts and releases exactly what the denotation says: the data objects with the stream names in force, handled in turn without a reset between them |
| EventMeaning.AcceptedIsRouted | lib/binance/parser.cpp:1163-1179 | every accepted message holds data objects, each after a name of at most 255 characters that ends in `@depth@100ms`, `@depth` or `@trade`, all ended as valid, and releases to exactly the handler chosen by the suffix of the last one's name |
| EventMeaning.EnvelopeHolds | lib/binance/parser.cpp:939-1087 | for a stream name of any length: its first 255 characters decide whether the data objects are taken, with that name, or the message is refused |
| EventMeaning.TradeMembersRun | lib/binance/parser.cpp:510-644 | the trade machine computes the trade's denotation over arbitrary members: only the first scalar of a member counts |
| CombinedHandler.DepthDataIsTransparent | lib/binance/parser.cpp:939-1087 | inside a depth data object the wrapper runs the depth handler and nothing else |
| CombinedHandler.StreamsByName | lib/binance/parser.cpp:157-163 | the names of depth streams are those that end in `@depth@100ms` or `@depth`, those of trade streams end in `@trade`, and none is both |
| CombinedSaxHandler.TradeSaxHandler.Handle | lib/binance/parser.cpp:510-644 | one event does in place what the trade machine does |
| CombinedSaxHandler.CombinedSaxHandler.Reset | lib/binance/parser.cpp:893-906 | the initial state of the wrapper and of both handlers |
| CombinedSaxHandler.CombinedSaxHandler.Handle | lib/binance/parser.cpp:931-1087 | one event does in place what the wrapper's machine does |
| CombinedSaxHandler.CombinedSaxHandler.ParseEvent | lib/binance/parser.cpp:1163-1179 | acceptance and the released records depend on the document alone; nothing is released when it is rejected |
| WireFormat.DepthEventRoundTrip | lib/binance/parser.cpp:1163-1179 | under every name `s@depth@100ms` and `s@depth`, every depth event written as JSON comes back as its updates, its time in microseconds, and is refused if and only if a side has more than 5000 levels |
| WireFormat.DepthEventByName | lib/binance/parser.cpp:1163-1179 | the same under a depth name of any length, as far as the name is kept |
| WireFormat.OtherNamesAreRefused | lib/binance/parser.cpp:157-163 | a message under any other name is refused, whatever it holds |
| WireFormat.LongPriceEndsSide | lib/binance/parser.cpp:268-334 | a price of more than 95 characters ends its side in both parsers |
| WireFormat.SymbolsByName | lib/binance/parser.cpp:336-453 | a name is a known symbol if and only if it is the exchange's own for it |
| WireFormat.DepthEventsRoundTrip | lib/binance/parser.cpp:891-1105 | any number of depth events in one message come back as one event under the last header |
| WireFormat.TwoEventsMerge | lib/binance/parser.cpp:1014-1066 | two events in one message release the levels of both under the second header |
| WireFormat.TradeRoundTrip | lib/binance/parser.cpp:1163-1179 | under every name `s@trade`, every trade written as JSON comes back as it was sent, its time in microseconds |
| WireFormat.TradeByName | lib/binance/parser.cpp:1163-1179 | the same under a trade name of any length, as far as the name is kept |
| WireFormat.SnapshotRoundTrip | lib/binance/parser.cpp:1143-1161 | a snapshot written as JSON comes back with the first 100 levels of each side |
| EndToEnd.ParsedRepliesAreHonest | trader/trader.cpp:115-137 | a service that lists at least 100 levels a side yields, through the parser, the true best 100 levels at its id |
| EndToEnd.RingDelivers | lib/interprocess/spsc_ring_buffer.hpp:51-81 | over a run of the ring from a clean reset the trader's feed is the released updates that follow the reset, none lost, repeated or torn; only when the run ends disabled can its last item be wrong |
| EndToEnd.TraderFollowsTheWire | trader/trader.cpp:290-314 | from documents, parser, ring and main loop, also when the run ends disabled: every decision that has not read an overtaken last item is taken on the exchange's best levels if and only if nothing is missing in its book; every order has its own pass, in order, and is right on the exchange when nothing is missing there |
| TradeFlowWindow.TradeFlowWindow.PopOldest | lib/trade_flow_window.cpp:40-45 | one entry leaves the window, the sums stay the totals of the rest modulo 2^64, pops and size add up to the pushes |
| TradeFlowWindow.TradeFlowWindow.EvictOlderThan | lib/trade_flow_window.cpp:34-38 | the window loses exactly its leading entries older than the bound |
| TradeFlowWindow.TradeFlowWindow.OnTrade | lib/trade_flow_window.cpp:9-24 | the window slides to what the whole history leaves; the newest entry counts the quantity for the buyers if the maker was not the buyer, else for the sellers; both sums are its totals modulo 2^64 |
| TradeFlowWindow.TradeFlowWindow.AggressiveBuyVolume | lib/trade_flow_window.cpp:26-28 | the buy total of the window modulo 2^64 |
| TradeFlowWindow.TradeFlowWindow.AggressiveSellVolume | lib/trade_flow_window.cpp:30-32 | the sell total of the window modulo 2^64 |
| TradeFlowWindow.WindowIsSuffix | lib/trade_flow_window.cpp:9-45 | for arbitrary time stamps the window is a suffix of the history, at most 2048 long, with the newest trade in it |
| TradeFlowWindow.WindowIsRecentTrades | lib/trade_flow_window.cpp:9-45 | with time stamps in order the window is exactly the last trades no older than the cutoff, up to 2048 |
| TradeFlowWindow.VolumesOfTrades | lib/trade_flow_window.cpp:9-45 | after any trades the volumes are what buyers took (maker not the buyer) and what sellers took (maker the buyer) in the newest trades, at most 2048, modulo 2^64 |
| TradeFlowWindow.WindowIsRecent | lib/trade_flow_window.cpp:9-45 | with time stamps in order those trades are exactly the ones within the time window of the newest, up to 2048 |
| TradeFlowWindow.SlidByTime | lib/trade_flow_window.cpp:9-24 | whatever its time, one more trade drops the oldest entries while they are too old for it, and one more only from a full ring |
| Strategy.SumQuantities | trader/trader.cpp:224-230 | the total quantity modulo 2^64 |
| Strategy.OrderProcessor.CreateOrder | trader/trader.cpp:187-221 | for every book and flow an order is made if and only if the wrapped test asks for one whose kind or price differs from the last, and it is that order |
| Strategy.TotalAdds | trader/trader.cpp:224-230 | totals add up over lists, and one row counts its quantity |
| Strategy.DecidedOnFields | trader/trader.cpp:187-216 | the decision on the fields: both sides non-empty, uncrossed, nine times one top-five sum above eleven times the other modulo 2^64 on the side that leads the flow, ten units at the first row of the other side |
| Strategy.HeavyCompares | trader/trader.cpp:197-199 | the zero-sum clause of the test is redundant |
| Strategy.DecidedExactly | trader/trader.cpp:187-216 | the code decides as the exact rule does if and only if the book is not tradable or the test that the flow leaves to matter loses as many laps on both products (or the side that loses more keeps more) |
| Strategy.BoundExactly | trader/trader.cpp:194-199 | the rule is followed on all books with top fives up to a bound if and only if eleven times the bound fits in 64 bits |
| Strategy.BuysAgainstTheBook | trader/trader.cpp:197-208 | a book of almost only asks on which the code buys |
| Strategy.MissesTheBook | trader/trader.cpp:197-208 | a book of almost only bids on which the code makes no order |
| Strategy.EveryOrderIsSound | trader/trader.cpp:187-221 | over any run of the code's decisions: each order differs from the one before in kind or price, on an uncrossed book, at the opposite best price, the flow on the order's side, and a share above 11/20 if and only if the test was judged right |
| Strategy.PassesMakeOrders | trader/trader.cpp:187-221 | each order is made by one call of its own, later orders by later calls, and that call decides exactly it on what it sees |
| Strategy.LatestOrderIsDecided | trader/trader.cpp:216-220 | whenever the code asks for an order, the latest order made has that kind and that price |
| Trader.TradeProcessor.ProcessTrade | trader/trader.cpp:153-169 | a trade that is read slides the window and raises the stamps; a disabled ring ends the loop |
| Trader.Trader.Pass | trader/trader.cpp:302-313 | one pass: the book ring, the trade ring, then no order or the one asked for |
| Trader.Trader.Run | trader/trader.cpp:294-314 | the loop writes exactly the orders of the run |
| OrdersOnExchange.TurnsReach | trader/trader.cpp:294-314 | in every pass the book has taken the updates read so far, in order, each once |
| OrdersOnExchange.TurnsShowWindow | trader/trader.cpp:294-314 | in every pass the flow is the window over all trades read so far |
| OrdersOnExchange.DecisionsWeighTrades | trader/trader.cpp:294-314 | every decision weighs what buyers took against what sellers took in the newest trades read so far; with time stamps in order, exactly the recent ones |
| OrdersOnExchange.DecisionsStampLatest | trader/trader.cpp:44-48 | at every decision the stamps are the greatest over all records read so far from both rings, and the time of the last reading |
| OrdersOnExchange.LoopRunsUntilFailure | trader/trader.cpp:294-314 | the loop goes on until the book call fails or the trade ring reports a disabled consumer, and ends there |
| OrdersOnExchange.DecisionsMatchExchange | trader/trader.cpp:294-314 | every decision is taken on the exchange's best levels, on the trusted rows, if and only if no change still to come is missing among them; with the last event complete none is |
| OrdersOnExchange.OrdersFollowExchange | trader/trader.cpp:294-314 | each order differs from the one before in kind or price; each is made in a pass of its own, in order, and if nothing is missing in the book of that pass and the top fives are trusted it is at the exchange's lowest ask or highest bid, and its share of the true top five is above 11/20 if and only if the test was judged right |
| OrdersOnExchange.FewLossesAreTrusted | trader/trader.cpp:94-137 | at most 95 deletions a side since the last snapshot leave the top fives trusted |
| OrdersOnExchange.OrderInMidEvent | trader/trader.cpp:70-87 | a call that returns inside an event, after which the trader buys at a price that is not the exchange's best |
| LatencyPipeline.EverySampleIsConserved | executor/executor.cpp:108-118 | in every run of feeder, trader and executor with a positive non-decreasing clock: every order carries the latest stamps over the records read from both rings, in order; the samples measure the orders in turn, each part the time between its two stamps; and the parts add up to the total |
| LatencyPipeline.StepKeepsInv | feeder/feeder.cpp:65-90 | read, write, trader read, trader write and now stay in order, although the trader keeps separate maxima over two rings |
| LatencyPipeline.ConservedIffStamped | executor/executor.cpp:43-48 | for ordered stamps the parts add up if and only if a read record stamped the order or nothing is left to lose |

## Left out

- Weak memory: the atomics are taken as sequentially consistent; reorderings that acquire and release allow are not modelled.
- SpscRingBuffer.SpscRingBuffer.Write: `Data` is copied in one assignment here; torn copies are the business of `SpscProtocol`.
- SpscProtocol.ResetSafeExactly: the only-if half is for items that are all different, since a lost item that equals its replacement cannot be noticed.
- EndToEnd.TraderFollowsTheWire: assumes what the exchange promises (events list every level touched in their interval with its final quantity, snapshots list levels best first, ids stay below 2^64 - 1), and that a reset inside an event cuts none that starts at id 1; `PartialEventExactly` says what such a cut would do.
- BookSync.GapEventOutcome: with an answer for every update; a snapshot request that fails ends the trader's loop.
- LatencyPipeline.EverySampleIsConserved: one trader and one executor, with the rings between them as lossless queues and orders allowed whenever one side of the flow leads.
- BookProcessor.OrderBookProcessor.ProcessUpdate: ring readings, clock values and snapshot replies are scripts handed to the processor; `FreshThroughout` states the hypothesis that a snapshot is no older than its event.
- The lower bound is modelled as the usual halving loop; the standard library's own code is not part of this model.
- JSON text: tokenising, encodings and malformed documents; the parsers start from the events of a well-formed value. Strings stand for the bytes the reader reports, one character a byte, as the length limits count bytes. Numbers that do not fit in 64 bits or have a fraction are one floating-point event.
- `ParseTradeEvent`, the entry point for a bare trade document, which differs from `ParseEvent` only by the missing envelope.
- Routing of records to one ring per symbol, and the loop over several traders in the executor.
- Network, TLS and HTTP clients, shared memory set-up, heartbeats, loggers, the observer, environment loading and floating-point output.
