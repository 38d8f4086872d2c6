# A verified model of CoinHub's core

CoinHub is a centralised exchange: a matching engine with one worker per trading pair, a websocket hub, Argon2id
password hashes, an ERC-20 token, a rate limiter and a Kafka consumer runner. This project models the logic of
these parts in Dafny and proves properties of it.

Each part has two layers. Functions on values say what an operation computes, and the laws are lemmas about these
functions, over all books, all runs, all interleavings, all strings. Where the source updates objects in place, a
class does the same with the same fields, and its methods are proved to end in exactly the state the functions
give.

| files | what they hold |
|---|---|
| `Orders`, `Events`, `Books` | orders, events and the log, the book as two sorted sides, well-formedness |
| `Market`, `MarketLaws`, `Greedy`, `MarketPromises` | `MatchMarket`: invariants, conservation, refinement of a greedy fill, and the exact condition for each promise it does not always keep |
| `Limit`, `LimitLaws`, `LimitPromises`, `LimitTheorems`, `LimitLosses` | `MatchLimit`: invariants, and the exact condition for each promise it does not always keep |
| `Trades`, `Streams` | who trades with whom, and both event streams field by field |
| `Removal`, `Runs`, `Examples` | removal, whole runs, concrete books |
| `Projection`, `ProjectionTheorems`, `RunProjection`, `RunStatus` | the order table rebuilt from the event stream |
| `Sides`, `Orderbook` | the classes: price levels, sides and the book with shared, mutable orders |
| `Routing` | one queue and worker per pair as interleaved steps |
| `ExpiryHeap`, `Expiry` | the expiry heap and the reaper |
| `Options`, `Base64`, `Scanning`, `HashFormat`, `HashLib` | the hash string, its printer, parser and check |
| `HubState`, `Hub` | the hub's maps as a value and in place |
| `Ledger`, `RateLimit`, `Consumer` | the token, the limiter, the runner |

`decimal.Decimal` is `real`: the engine only adds, subtracts and compares. The B-tree is a sequence of levels
sorted by the side's comparator. The publisher is a log of event values. Everything outside a component (the key
derivation, the handler, the dead-letter topic, cancellation, clocks) is a parameter that may behave in any way.

## Where the code and what is said of it differ

The code is modelled as it is; for each promise that fails there is a concrete example or a general statement of
when it holds, and for those of the matching both.

- The comment on `MatchLimit` and the repository's README promise price-time matching, self-trade prevention and a
  resting remainder. `MatchLimit` visits only the best opposite level, so a remainder can rest crossed
  (`LimitUncrossedIff`, `RemainderRestsCrossed`); against an empty opposite side, or, for a new order,
  without a trade, nothing rests (`RemainderRestsIff`, `FirstOrderIsNotRested`); no order rests on a new book, ever
  (`EmptyBookStaysEmpty`).
- On a full fill it drops the head of the level, which is the filled order only if none was stepped over
  (`LimitRemovesFilledIff`, `LimitKeepsLiveIff`, `WrongOrderLeaves`); only then does the status published for the
  makers tell who has left (`LimitStatusIff`, `RunStatusIff`). An own live order dropped that way takes its quantity
  with it (`LimitConservesIff`).
- `MatchMarket` compares order IDs instead of users on the buy side, so a buyer can trade with itself
  (`MarketBuySelfTradesIff`, `MarketBuyerMeetsItself`).
- A market order does not get all it may trade with. A seller leaves a level at an order of its own user
  (`SellerStopsAtOwnBid`), a buyer at a spent one (`BuyerStopsAtSpentAsk`), which limit orders leave behind
  (`WrongOrderLeaves`); the orders behind it on that level stay hidden, and the seller goes on to worse prices
  (`SellerPassesOverBetterBid`). The promise of quantity holds if and only if no acceptable level hides an order, or
  what is in reach suffices (`MarketFillsIff`); that of price-time priority if and only if no order hidden on the
  way is passed over (`MarketIsPriceTimeIff`).
- A market order that traded and then ran out of levels is published as partial though it rests nowhere; it is
  published as cancelled only if a level it does not accept is left (`MarketTakerStatus`). A buyer's limit order
  that the best ask refuses stays open in the table (`LimitTakerStatus`).
- A limit order's trades report both remaining quantities as they stood before the trade, a market order's what is
  left after it (`LimitTradesTell`, `MarketTradesTell`). A trade whose inputs are refused is published all the same,
  as the zero event (`RefusedTradeIsZero`).
- `RemoveOrderByOrderID` never reports success, so `Cancel` always fails and the reaper never publishes an expiry
  (`Tick`).
- A negative retry limit makes the runner commit well-formed records unhandled (`NegativeRetriesSkip`).
- The limiter's windows share a counter if they start in the same second, and the counter can then expire inside
  a later one (`ShortWindowsOverrun`). `KeepsLimitIff` says exactly when the limit is kept: with a limit of two or
  more, windows under a second need counters that live for a second rounded up to whole windows. Windows of a
  second or more, like the application's minute, only need the counter to be kept for the window (`LongWindows`).
  Times count from Go's zero time, as `Truncate` does; the runs that break the limit can start at any common
  multiple of window and second (`MovedRun`), so starting later does not help.
- `BookReaper.Push` and `BookReaper.Pop` call `heap.Push` and `heap.Pop` on the heap they implement, which call
  them back: as coded, neither returns, nor does a tick of the reaper once an entry has expired. The model has the
  documented operations instead, on a slice in heap order.

## Model

| member | source | states |
|---|---|---|
| Greedy.MarketIsGreedy | internal/engine/orderbook.go:260-463 | a market order is a greedy fill of the flattened priority list: same matches in the same order, same taker fill, same book left, own side untouched |
| MarketPromises.MarketFillsIff | internal/engine/orderbook.go:260-463 | on every well-formed book a market order gets the lesser of what it wants and everything it may trade with at acceptable prices if and only if no acceptable level hides an order behind one that bars the taker, or what is in reach suffices |
| MarketPromises.MarketIsPriceTimeIff | internal/engine/orderbook.go:260-463 | its matches are those of price-time priority over all these orders, in order and quantity, if and only if it passes over no hidden order before it has what it wants |
| MarketPromises.MarketIsMaximal | internal/engine/orderbook.go:260-463 | on every well-formed book a market order ends filled, or on every acceptable level left nothing remains of the orders before the first that bars it |
| MarketPromises.HidesSideIff | internal/engine/orderbook.go:262-267 | some acceptable level, at any depth, hides an order exactly when the test that walks from the best level says so |
| Examples.SellerStopsAtOwnBid | internal/engine/orderbook.go:392-395 | a concrete market sell for which nothing trades and nothing is published, because its own user's bid stands first |
| Examples.BuyerStopsAtSpentAsk | internal/engine/orderbook.go:279-282 | a concrete market buy that gets nothing from a live ask behind a spent one |
| Examples.SellerPassesOverBetterBid | internal/engine/orderbook.go:392-395 | a concrete market sell that trades at a worse price than that of a bid behind its own user's |
| MarketLaws.MarketOnlyLastPartial | internal/engine/orderbook.go:312-333 | every maker but the last is consumed whole, and the last one too unless it completed the taker |
| MarketLaws.MarketConserves | internal/engine/orderbook.go:276-336 | traded quantity is the taker's gain in filled and the opposite side's loss in depth |
| MarketLaws.MarketKeepsWellFormed | internal/engine/orderbook.go:239-484 | sorted sides, no empty level, price agreement, range of filled and unique IDs survive every market order; no ID is added |
| MarketLaws.MarketKeepsUncrossed | internal/engine/orderbook.go:239-484 | a market order cannot cross an uncrossed book |
| LimitTheorems.LimitIsGreedy | internal/engine/orderbook.go:57-134 | a limit order trades in greedy shares with everyone at the best level but its own user, and gets the lesser of its want and their depth |
| LimitTheorems.LimitLeavesGreedyLevel | internal/engine/orderbook.go:147-208 | with none of the taker's orders and nothing spent on the best level, the level left behind is the greedy leftover and deeper levels are untouched |
| LimitPromises.LimitRestsIff | internal/engine/orderbook.go:131-134 | the own side afterwards: the unfilled remainder at the tail of its own price level exactly when `Rests` holds, unchanged otherwise |
| LimitTheorems.RemainderRestsIff | internal/engine/orderbook.go:45-47 | the promise that an unfilled remainder rests holds if and only if something is tradable at an acceptable best opposite level |
| LimitTheorems.LimitRemovesFilledIff | internal/engine/orderbook.go:84-85 | the opposite side loses exactly the filled makers if and only if no fillable order stands behind one that is stepped over |
| LimitLosses.LimitConservesIff | internal/engine/orderbook.go:65-107 | on every well-formed book the opposite side loses at least the traded quantity, and exactly that if and only if no own live order of the taker stands at a position of the best level below the number of orders the taker can fill |
| LimitLosses.LimitConserves | internal/engine/orderbook.go:61-107 | with no order of the taker's own at the best level, spent orders or not, the opposite side loses exactly the traded quantity, which is the taker's gain |
| LimitTheorems.NothingSkipped | internal/engine/orderbook.go:153-156 | a best level with none of the taker's orders and nothing spent on it never loses a wrong order |
| LimitTheorems.LimitUncrossedIff | internal/engine/orderbook.go:215-218 | an uncrossed book stays uncrossed under a limit order if and only if the order does not rest while a level it accepts remains |
| LimitPromises.LimitKeepsWellFormed | internal/engine/orderbook.go:41-229 | every limit order with a fresh ID keeps the book well-formed, even when it takes a wrong order |
| LimitLosses.LimitCounts | internal/engine/orderbook.go:84-134 | after any limit order the book has one order less for each order of the best level the taker can fill, and one more if the remainder rests |
| LimitLosses.LimitKeepsLiveIff | internal/engine/orderbook.go:79-134 | a book without spent orders stays so under a limit order if and only if it takes no wrong order and rests no taker with nothing left |
| Examples.WrongOrderLeaves | internal/engine/side.go:62-77 | a concrete level on which `PopFront` drops the buyer's own order and leaves the filled one in the book |
| Examples.FirstOrderIsNotRested | internal/engine/orderbook.go:45-47 | a concrete limit order that is refused and not rested, because the opposite side is empty |
| Examples.RemainderRestsCrossed | internal/engine/orderbook.go:57-64 | a concrete limit order that rests opposite an ask at its own price |
| Examples.MarketBuyerMeetsItself | internal/engine/orderbook.go:271-274 | a concrete market buy that trades with the buyer's own ask |
| Trades.MarketFillsFair | internal/engine/orderbook.go:260-463 | every market fill is positive, fills one side, is within the taker's limit and takes a maker of the opposite side; no market sell trades with its own user |
| Trades.LimitFillsFair | internal/engine/orderbook.go:65-83 | the same for limit orders, none of which trades with its own user |
| Trades.MarketBuySelfTradesIff | internal/engine/orderbook.go:268-275 | a market buyer trades with itself if and only if one of its own asks is reached before it is filled |
| Trades.MarketTradesReport | internal/engine/orderbook.go:298-310 | the i-th trade event of a market order reports the i-th fill: parties, quantity, flags, a price between the two limits |
| Trades.LimitTradesReport | internal/adapter/messaging/kafka/trade_event.go:79-109 | the same for limit orders, whose trades are priced at the taker's limit |
| Streams.MarketTradesTell | internal/engine/orderbook.go:295-310 | for the i-th trade of a market order: parties and pair are those of a resting order and the taker; the taker's remaining is what it came with less all trades so far; the maker's is nothing exactly if its ID has left the book, and otherwise that of the order of that ID in the book |
| Streams.LimitTradesTell | internal/engine/orderbook.go:75-77 | for the i-th trade of a limit order: the same parties and pair, both remaining quantities as they stood before the trade, and two order events for it, the maker's and the taker's |
| Streams.RefusedTradeIsZero | internal/adapter/messaging/kafka/trade_event.go:91-94 | a trade whose parties, pair or price the event constructor refuses is published as the zero event |
| Streams.LimitEventsTell | internal/engine/orderbook.go:69-109 | field by field: a limit order publishes two order events for each trade, first that of the resting order, then its own, with the figures after that trade, and type, status and remaining quantity agree |
| Streams.LimitRefusalTells | internal/engine/orderbook.go:219-226 | without a trade a limit order publishes nothing, but for one cancelled event of a sell order that the best bid refuses |
| Streams.MarketBatchSize | internal/engine/orderbook.go:345-360 | a market order publishes one event more than it has trades, or none if it neither traded nor came to a level it does not accept |
| Streams.MarketEventsTell | internal/engine/orderbook.go:287-325 | field by field: the i-th event is that of the maker of the i-th trade, with the figures after it |
| Streams.MarketBatchEnd | internal/engine/orderbook.go:345-350 | field by field: the last event is the taker's, with all it got, and says cancelled exactly if something is left to get and an unacceptable level is in the book |
| Streams.MarketLeavesOrders | internal/engine/orderbook.go:321-333 | an order opposite a market order afterwards is an old one as it was, or a maker with something left whose fill and status alone have changed |
| Streams.LimitLeavesOrders | internal/engine/orderbook.go:84-107 | the same after a limit order, but that a maker may be there with nothing left |
| Streams.RestedIsPartial | internal/engine/orderbook.go:131-134 | what rests is the order that came, partial, with everything it got |
| Removal.RemovalIsExact | internal/engine/orderbook.go:501-532 | removal at an order's price takes out exactly that order, keeps the others in sequence, and a second scan does not find it |
| Removal.RemovalNeedsPrice | internal/engine/orderbook.go:507-516 | at a price where the ID does not rest, removal changes nothing |
| Removal.RemovalKeeps | internal/engine/price_level.go:40-48 | removal keeps the book well-formed, adds nothing and cannot cross it |
| Runs.RunKeepsWellFormed | internal/engine/orderbook.go:41-532 | every run of limit, market and removal steps with fresh IDs keeps the book well-formed |
| Runs.RunNeverGrows | internal/engine/engine.go:226-242 | the number of resting orders never grows on a run of orders that do not arrive as partial |
| Runs.RunStaysLiveIff | internal/engine/engine.go:226-242 | a book without spent orders stays so all through a run of any steps if and only if no limit order of the run spoils it |
| Runs.EmptyBookStaysEmpty | internal/engine/engine.go:100-113 | a book created empty stays empty and silent under every run |
| Runs.StepUncrossedIff | internal/engine/engine.go:233-240 | a step crosses an uncrossed book if and only if it is a limit order that rests while a level it accepts remains |
| ProjectionTheorems.MarketTells | internal/engine/orderbook.go:465-482 | after the batch of a market order every maker's row shows its fill and status, the taker's row shows the taker's fill, and no other row changed |
| ProjectionTheorems.LimitTells | internal/engine/orderbook.go:109-111 | the same for the pairs of events of a limit order, and for a refused one |
| ProjectionTheorems.RunInSync | internal/adapter/repository/postgres/order_repo.go:40-48 | replaying everything a run published, last write wins, leaves the table with the engine's own fill for every order in the book |
| RunProjection.RunShowsLast | internal/adapter/repository/postgres/order_repo.go:40-48 | over a run every row ends with what the last fill that touched its order left of it, whether the order rests, has left or never rested, and with its old fill if none did |
| ProjectionTheorems.MarketStatusTold | internal/engine/orderbook.go:312-325 | after a market order a touched maker reads filled exactly when it has left the book |
| ProjectionTheorems.LimitStatusIff | internal/engine/orderbook.go:84-93 | after a limit order that is so for all touched makers if and only if no wrong order was taken |
| RunStatus.RunStatusIff | internal/adapter/repository/postgres/order_repo.go:40-48 | at every moment of a run every maker touched so far reads filled exactly when it has left the book other than by a removal, if and only if the run never takes a wrong order |
| RunStatus.MarketTakerStatus | internal/engine/orderbook.go:465-482 | the row of a market order, read off the book it meets: filled, cancelled if it stops at an unacceptable level, partial if it only runs out of orders, though it never rests |
| RunStatus.LimitTakerStatus | internal/engine/orderbook.go:125-226 | the row of a new limit order reads partial if and only if the order rests, filled if and only if it has all it wants, cancelled if and only if it is a sell order the best bid refuses |
| ProjectionTheorems.WrongOrderShows | internal/engine/orderbook.go:174-178 | whenever a wrong order is taken, some maker published as filled is still in the book |
| Sides.PriceLevel.RemoveByID | internal/engine/price_level.go:40-48 | takes out the first order of that ID and says whether there was one |
| Sides.PriceLevel.OrderExistByOrderID | internal/engine/price_level.go:50-54 | true exactly when an order of that ID is queued |
| Sides.Side.Add | internal/engine/side.go:41-49 | appends to the level of the order's price, or inserts a new level in comparator order: `Place` |
| Sides.Side.PopFront | internal/engine/side.go:62-77 | drops the head of the best level, and the level with its last order |
| Sides.Side.RemoveEmptyLevel | internal/engine/side.go:89-99 | drops exactly the levels without orders |
| Sides.Side.GetLevel | internal/engine/side.go:85-87 | finds the level of a price if there is one |
| OrderbookModel.SweepPriceLevel | internal/engine/orderbook.go:268-343 | the closure over one level: level, taker, events and trades are those of `SweepLevel`; its loop ends |
| OrderbookModel.FillLoop | internal/engine/orderbook.go:64-129 | the limit loop over shared orders while `PopFront` changes the level under it stands, at its end, where `FillLevel` says |
| OrderbookModel.Orderbook.MatchMarket | internal/engine/orderbook.go:239-484 | book, error and both event streams become those of `MarketResult` |
| OrderbookModel.Orderbook.MatchLimit | internal/engine/orderbook.go:41-229 | book, error and both event streams become those of `LimitResult` |
| OrderbookModel.Orderbook.RemoveOrderByOrderID | internal/engine/orderbook.go:501-532 | the book becomes `Removed`; the flag is never raised |
| OrderbookModel.Orderbook.OrderExist | internal/engine/orderbook.go:534-556 | true exactly when the ID rests on that side |
| OrderbookModel.Orderbook.Cancel | internal/engine/orderbook.go:486-493 | the removal is made and always reported as not found |
| Routing.PairRunsItsHistory | internal/engine/engine.go:226-262 | for every interleaving of routing, workers and reaper, a pair's book and log are those of a sequential run of its own history |
| Routing.QueueKeepsOrder | internal/engine/engine.go:46-53 | queued plus routed orders are, in order, the consumed ones plus those still queued |
| Routing.StepsKeepApart | internal/engine/engine.go:375-381 | no step on one pair changes another pair's queue, book or log |
| Routing.WorkMatches | internal/engine/engine.go:226-258 | a worker's turn takes the head of its queue; a market order leaves the book and adds the events of `MatchMarket`, a limit order those of `MatchLimit`, and a cancel takes its order out and publishes nothing |
| Routing.ReapRemoves | internal/engine/engine.go:426-436 | a reaper's turn takes an order out of one book, publishes nothing and leaves the queues alone |
| Routing.OnlyLimitOrdersRest | internal/engine/engine.go:233-240 | on every schedule an ID in a pair's book was there before or is that of a limit order queued for the pair or routed to it |
| Routing.QueuesAreBounded | internal/engine/engine.go:169-173 | no queue ever holds more than ten thousand orders |
| Routing.UnknownPairIsDropped | internal/engine/engine.go:46-53 | an order for a pair without a queue changes nothing |
| Routing.DrainedPairIsSequential | internal/engine/engine.go:283-301 | for every schedule, once drained, a pair has the book and log of a sequential run of the orders queued for it and routed to it, in order, with the reaper's removals at their turns |
| Routing.UnreapedIsSequential | internal/engine/engine.go:245-262 | where the reaper leaves the pair alone that is the run of those orders and nothing else |
| Routing.SchedulesAgree | internal/engine/engine.go:245-262 | two schedules that route the same orders to a pair, with the same turns of its worker and the reaper, agree on it once drained |
| ExpiryHeap.PushKeeps | internal/engine/expiry.go:50 | the documented push keeps the heap order; that it adds exactly the entry is the contract of `Pushed` |
| ExpiryHeap.PopKeeps | internal/engine/engine.go:426 | the pop the reaper makes keeps the heap order; that it takes out exactly the root is the contract of `Popped` |
| ExpiryHeap.RootIsLeast | internal/engine/expiry.go:39-42 | in heap order no entry expires before the root |
| Expiry.BookReaper.Tick | internal/engine/engine.go:421-459 | over a heap that promises no more than heap order: pops exactly the expired entries in nondecreasing expiry, reaps each, publishes nothing, and ends |
| Expiry.ReapIsExact | internal/engine/engine.go:426-436 | after a tick an order is in its book if and only if it was there and no popped entry names it |
| Base64.DecodeIffEncoded | internal/infrastructure/security/hashlib.go:184-198 | strict unpadded decoding yields some bytes exactly on the one string that encodes them (RFC 4648 sections 3.2, 3.5 and 4) |
| Base64.EncodedIsClean | internal/infrastructure/security/hashlib.go:175-182 | no encoding contains `$`, a carriage return or a line feed |
| Base64.EncodingIsGrouped | internal/infrastructure/security/hashlib.go:96-97 | each three bytes, filled up with zeros, are one number whose digits in base 64 are the values encoded |
| Base64.AlphabetInOrder | internal/infrastructure/security/hashlib.go:96-97 | the characters for these values are the standard alphabet, in order |
| Base64.DecodedFits | internal/infrastructure/security/hashlib.go:186-198 | a successful decoding fills the buffer made for it, so the buffer's length is the data's length |
| Scanning.ScanUintIff | internal/infrastructure/security/hashlib.go:165-169 | `%d` reads up to a given rest exactly when what precedes it is blanks and digits worth a value in range |
| Scanning.ScanIntIff | internal/infrastructure/security/hashlib.go:156-160 | the same with a sign and 64 bits |
| HashFormat.DecodeIff | internal/infrastructure/security/hashlib.go:147-200 | a string decodes to parameters, salt and key if and only if it prints them, up to blanks, leading zeros and the sign of the version |
| HashFormat.DecodeFormat | internal/infrastructure/security/hashlib.go:96-100 | decoding undoes the printing for all parameters, salts and keys; the recorded lengths are theirs |
| HashFormat.VariantRefusedIff | internal/infrastructure/security/hashlib.go:151-154 | a string is refused for its variant if and only if it does not start with that of Argon2id |
| HashFormat.VersionRefusedIff | internal/infrastructure/security/hashlib.go:157-163 | a string is refused for its version if and only if a version can be read and is not nineteen |
| HashFormat.TailRefusedIff | internal/infrastructure/security/hashlib.go:171-190 | behind the numbers a line break or a missing separator is no hash, and anything else that prints no salt and key is corrupt |
| HashLib.CheckCreated | internal/infrastructure/security/hashlib.go:88-132 | a created hash decodes to exactly what it was made from, accepts its password, and accepts another one exactly if it derives the same key from the same arguments |
| HashLib.CheckAcceptsIff | internal/infrastructure/security/hashlib.go:115-132 | for every string, a password is accepted if and only if the string prints parameters, a salt and the key derived from them |
| HashLib.CreatedText | internal/infrastructure/security/hashlib.go:94-100 | a created hash cut at its dollar signs is the variant, version nineteen, memory, iterations and parallelism by name between commas, the salt, and the derived key |
| HashLib.CheckOutcomes | internal/infrastructure/security/hashlib.go:115-132 | a string that does not decode is refused with the decoder's error; one that does is compared under its own parameters |
| HashLib.DecodeInto | internal/infrastructure/security/hashlib.go:186-190 | fills the buffer with the decoded bytes, or reports failure exactly when there are none |
| HashLib.DecodeHash | internal/infrastructure/security/hashlib.go:147-200 | reading front to back gives the outcome, the parameters and the buffers of `Decode`, error by error |
| HubState.RegisterConsistentIff | internal/adapter/handler/websockets/hub.go:56-66 | registering keeps the maps mutual inverses if and only if the connection is new and in no room, or is registered already as it is |
| HubState.RunConsistent | internal/adapter/handler/websockets/hub.go:56-143 | on every run with fresh connection IDs the three maps and the clients' room sets stay mutual inverses, without empty entries |
| HubState.JoinEnters | internal/adapter/handler/websockets/hub.go:103-119 | after a join the registered connection is in that room, and nobody is anywhere else than before; users and presence stay |
| HubState.LeaveExits | internal/adapter/handler/websockets/hub.go:126-143 | after a leave the registered connection is out of that room, and everybody else is where they were |
| HubState.RegisterAdds | internal/adapter/handler/websockets/hub.go:56-66 | registering a new connection makes it the user's, in no room, and touches no other |
| HubState.UnregisterRemoves | internal/adapter/handler/websockets/hub.go:73-98 | unregistering takes the connection out of every room and out of its user's presence, and touches no other |
| HubState.InRoomIff | internal/adapter/handler/websockets/hub.go:56-143 | after any run a registered connection is in a room if and only if its last join of the room has not been followed by leaving it, nor by its registration |
| HubState.UnregisterErases | internal/adapter/handler/websockets/hub.go:73-98 | unregistering, which visits only the client's own rooms and user, leaves the hub without any mention of the connection |
| HubState.MembersDetermine | internal/adapter/handler/websockets/hub.go:39-45 | rooms and presence carry nothing that the clients do not determine |
| HubState.NoTrace | internal/adapter/handler/websockets/hub.go:82-97 | once a connection is gone the hub is as if only the others had acted |
| HubState.ComeAndGo | internal/adapter/handler/websockets/hub.go:103-143 | register, any joins and leaves of that connection, then unregister restores the hub |
| Hub.WebSocketHub.Register | internal/adapter/handler/websockets/hub.go:56-66 | the maps become those of `Register` on values, also where an ID is overwritten |
| Hub.WebSocketHub.Join | internal/adapter/handler/websockets/hub.go:103-119 | the maps and the client's room set become those of `Join`; an unknown connection changes nothing |
| Hub.WebSocketHub.Leave | internal/adapter/handler/websockets/hub.go:126-143 | the same for `Leave` |
| Hub.WebSocketHub.Unregister | internal/adapter/handler/websockets/hub.go:73-97 | on every hub the loop over the client's rooms ends in `Unregister` on values |
| Hub.WebSocketHub.RoomTargets | internal/adapter/handler/websockets/hub.go:146-152 | a room broadcast goes to exactly the registered clients that joined the room |
| Hub.WebSocketHub.UserTargets | internal/adapter/handler/websockets/hub.go:166-172 | the connection IDs a user broadcast sets out with are exactly the user's |
| HubState.BroadcastReaches | internal/adapter/handler/websockets/hub.go:165-181 | whatever happens between its look-ups, a user broadcast reaches, in order, exactly those of them not unregistered before their turn, and nobody else, as long as connection IDs are not used again |
| Hub.WebSocketHub.IsOnline | internal/adapter/handler/websockets/hub.go:184-188 | true exactly when some registered connection is the user's |
| Hub.WebSocketHub.Stats | internal/adapter/handler/websockets/hub.go:191-199 | the counts of connections, of rooms somebody has joined and of users with a connection |
| Ledger.UpdateMovesExactly | pkg/contracts/ERC20.sol:176-202 | an update goes through exactly when what it takes is there or what it mints fits; every balance and the supply then change by exactly what goes in and out, minted or burnt, nothing else changes, and the balances still add up to the supply |
| Ledger.Execute | pkg/contracts/ERC20.sol:142-147 | every call keeps the ledger sound, and a call that reverts changes nothing |
| Ledger.SelfTransferMovesNothing | pkg/contracts/ERC20.sol:159-167 | a transfer to oneself goes through exactly when it is covered, and changes no balance |
| Ledger.TransferMovesExactly | pkg/contracts/ERC20.sol:183-197 | a transfer, to another or to oneself, goes through exactly when both parties are nonzero and it is covered, and then moves exactly the value |
| Ledger.TransferFromMovesExactly | pkg/contracts/ERC20.sol:142-147 | `transferFrom` goes through exactly when allowance, balance and nonzero parties allow it; then the value moves from the owner to the recipient, a finite allowance is spent by it, and every other balance and allowance stays |
| Ledger.TransferFromReverts | pkg/contracts/ERC20.sol:294-304 | which check a reverted `transferFrom` failed first |
| Ledger.TransferCallMovesExactly | pkg/contracts/ERC20.sol:99-103 | `transfer` moves the value from the caller to the recipient, or reverts with the first check that fails |
| Ledger.MintMovesExactly | pkg/contracts/ERC20.sol:214-219 | a mint goes through exactly when the account is nonzero and the supply stays below 2 to the 256, and adds the value to both |
| Ledger.BurnMovesExactly | pkg/contracts/ERC20.sol:229-234 | a burn goes through exactly when the account is nonzero and holds the value, and takes it from both |
| Ledger.ApproveSetsExactly | pkg/contracts/ERC20.sol:120-124 | `approve` sets the caller's allowance for the spender to the value, and nothing else |
| Ledger.SupplyIsIssued | pkg/contracts/ERC20.sol:214-234 | over any run the supply moves only by what was minted and burned, and stays the sum of all balances |
| Ledger.SupplySinceDeployment | pkg/contracts/ERC20.sol:176-202 | after any calls since deployment the supply is what was minted less what was burned, the sum of all balances, and the zero address holds nothing |
| Ledger.AllowanceIsSpent | pkg/contracts/ERC20.sol:294-304 | between approvals what a spender has moved is exactly what a finite allowance has lost; an infinite one does not change |
| Ledger.ERC20.UpdateBalances | pkg/contracts/ERC20.sol:176-202 | with wrapping arithmetic in the unchecked blocks the result is still the exact one: nothing wraps |
| Ledger.ERC20.TransferFrom | pkg/contracts/ERC20.sol:142-147 | spends and moves, or reverts as a whole |
| Ledger.ERC20.Spend | pkg/contracts/ERC20.sol:294-304 | an unchecked subtraction that never wraps; an infinite allowance is left alone |
| RateLimit.WindowBound | internal/adapter/repository/cache/rate_limiter.go:29-44 | if the counters live long enough, at most `maxRequests` are admitted per address and window |
| RateLimit.IntervalBound | internal/adapter/repository/cache/rate_limiter.go:25-28 | if the counters live long enough, at most twice `maxRequests` in any interval as long as a window |
| RateLimit.KeepsLimitIff | internal/adapter/repository/cache/rate_limiter.go:29-44 | for every window length, lifetime and limit: the limit is kept on every run from any time on if and only if a counter outlives all windows that start in its second, or just its own window if the limit is one or windows last a nanosecond |
| RateLimit.MovedRun | internal/adapter/repository/cache/rate_limiter.go:30-31 | a run moved to any other time at which both a window and a second start is let through as before |
| RateLimit.LongWindows | internal/adapter/repository/cache/rate_limiter.go:38-41 | for windows of a second or more that is: the counter is kept for a whole window |
| RateLimit.WindowExact | internal/adapter/repository/cache/rate_limiter.go:29-44 | for windows of a second or more, kept for a window: in every window an address is let through exactly as often as it asks, up to the limit |
| RateLimit.OthersDoNotCount | internal/adapter/repository/cache/rate_limiter.go:30-31 | what an address is let through does not depend on the requests of any other, for every configuration |
| RateLimit.MinuteAndHalfSecond | internal/adapter/repository/cache/rate_limiter.go:38-41 | a minute's counters kept for a minute keep every limit; half a second's kept for half a second keep none of two or more |
| RateLimit.EarlyOverrun | internal/adapter/repository/cache/rate_limiter.go:38-41 | for every limit, a counter that does not outlive its own window lets twice the limit through in one window |
| RateLimit.ShortWindowsOverrun | internal/adapter/repository/cache/rate_limiter.go:30-31 | for every limit of two or more, a counter that does not outlive the windows of its second lets one less than twice the limit through in one of them |
| RateLimit.RateLimiterCache.Allow | internal/adapter/repository/cache/rate_limiter.go:29-44 | increments the counter of address and window, sets the expiry on the first increment only, admits up to the limit |
| Consumer.ProcessedIff | internal/infrastructure/kafka/consumer/consumer.go:103-163 | a record is processed if and only if the handler succeeded within `maxRetries + 1` calls or one copy, field by field that of the record, went to the dead-letter topic, never both |
| Consumer.ProcessForeseen | internal/infrastructure/kafka/consumer/consumer.go:112-133 | which records will be processed, from the answers of handler, cancellation and dead-letter topic alone |
| Consumer.CopyTellsWhy | internal/infrastructure/kafka/consumer/consumer.go:103-151 | the copy on the dead-letter topic names what the payload lacks, or the error of the handler's last call |
| Consumer.AttemptsCount | internal/infrastructure/kafka/consumer/consumer.go:112-133 | a retry is counted for each wait; calls are one more than retries, or as many if a wait was cut short, and the record is then not processed |
| Consumer.NegativeRetriesSkip | internal/infrastructure/kafka/consumer/consumer.go:112-134 | the handler is never called, and the record is taken as processed, exactly when the retry limit is negative |
| Consumer.EntersBatchIff | internal/infrastructure/kafka/consumer/consumer.go:77-89 | a record enters the commit batch exactly if it was handled in time or dead-lettered, in its place |
| Consumer.CommitsTheBatch | internal/infrastructure/kafka/consumer/consumer.go:91-99 | a poll commits its whole batch at once or nothing, and nothing if the batch is empty |
| Consumer.IterateAccounts | internal/infrastructure/kafka/consumer/consumer.go:70-90 | processed plus failed are the records iterated, retries are at most `maxRetries` each, the dead-letter counter counts the copies |
| Consumer.RunBalances | internal/infrastructure/kafka/consumer/consumer.go:70-98 | over any run of polls every record is either in a committed batch or counted as failed |
| Consumer.Runner.Retry | internal/infrastructure/kafka/consumer/consumer.go:112-133 | the retry loop has the outcome, the uses of the outside and the counters of `Attempts` |
| Consumer.Runner.SendToDLQ | internal/infrastructure/kafka/consumer/consumer.go:137-163 | without a topic the failure stands; with one, a copy with two more headers is sent and counted once accepted |
| Consumer.Runner.RunBatch | internal/infrastructure/kafka/consumer/consumer.go:70-98 | the batch loop and its commit leave counters and outside as `Poll` says |

## Left out

- RunInSync: compares fills only, the status being that of `RunStatusIff`, and only of orders that have a row; creating rows and handling duplicates are not part of this model.
- RunNeverGrows: asks that submitted orders are not already partial, which is how the engine creates them.
- RoomTargets: only on a hub whose maps are mutual inverses; after a connection ID was registered twice the rooms may still hold the first client.
- SweepPriceLevel: one text serves both sides, with the taker's side tested where the two copies in the source differ.
- RemoveEmptyLevel: one pass over the sequence instead of collecting and then deleting.
- Push: takes entries for pairs that have a book only; the source pushes any pair, and the reaper then follows a missing book and the process ends. The index kept in each entry is not modelled.
- Allow: errors of the store; windows of zero length or less; how the client library rounds the expiry, which is why `life` is a parameter of its own. A counter that has expired is dropped when it is next used, which is the same for a clock that never runs backwards.
- Retry: the length of the backoff; a wait ends, or is cut short by cancellation.
- RunBatch: polling, its errors and the shutdown of the runner; the text of a failure is whatever the handler gave.
- CheckHash: the derivation itself and constant-time comparison; a derivation that panics is `None`.
- CreateHash: the random source, whose bytes are a parameter.
- ScanInt: how far a failed scan has read, and texts that are not valid UTF-8.
- ERC20: events and names; a revert restores the storage, as the virtual machine does.
- OrderStatusEvent: event IDs, versions, timestamps, behaviour and expiry, and the validation of order events.
- NewTradeEvent: remaining quantities are numbers and not text.
- PublishOrderEvents: failures of the publisher, which the engine only logs, and metrics.
- Next: the fresh order ID given to every routed event; no claim connects a cancel or an expiry with a submitted order across the broker.
- The database, Redis and Kafka clients, HTTP handlers, wallets, chain listeners, mail, metrics and configuration: plumbing around the parts above.
- `Dust`, `AddToFilled` and `RemoveLevel`: never used in matching.
- B-tree nodes, decimal digits and Argon2: libraries, represented by what they promise.
