# Bristol Stock Exchange: a verified model of the exchange core

This project models the matching engines of the Bristol Stock Exchange (BSE)
and its threaded variant TBSE. It also models the trader bookkeeping that
reacts to the exchange's messages, the exchange thread's loop and the small
price-assignment helper. Each part is proved against the promises the code
makes.

- **TBSE / BSE exchange** (`tbse_exchange.py`). `TBSE_exchange.py` is a
  copy that keys the trade's time as `'time'` rather than `'t'`. The
  exchange part of `BSE.py` is an earlier variant with the same book
  logic; its differences are listed under "Left out".
  - One order per trader per side, with a rebuilt limit order book (LOB).
  - `process_order2` adds an order and, when the book crosses, trades the
    best bid against the best ask and deletes both.
  - Modules `PriceLevels`, `Bse1Book` (one side of the book) and
    `Bse1Exchange` (the exchange as a class, plus a value-level `Process`
    function it is proved against).
  - Headline theorem: with positive quantities, processing an order never
    raises and leaves the book uncrossed. A resulting trade is at a price
    the incoming order accepts.
- **Exchange thread loop** (`tbse.py`, `run_exchange`). Module `Coordinator`
  models one pass of the loop:
  - apply the queued kills;
  - drop an order whose customer order is already resolved;
  - process the order;
  - after a trade, mark both customer orders resolved and broadcast the
    trade.
- **BSE2 exchange** (`BSE2/BSE2_exchange.py`).
  - Orders are keyed by exchange-assigned id. Each side holds a price-sorted
    LOB whose levels are sorted by arrival.
  - `book_take` walks the book for MKT, FOK, AON and IOC orders. It emits
    FILL, PART and FAIL messages, trade events and a fee of 333 per message.
  - LIM and GFD orders that cross are turned into IOC orders.
  - The exchange keeps a lit and a dark pool, split by block size 300, and
    a consolidated tape. It charges fees to trader records and summarises
    an order's trades at their volume-weighted average price.
  - Modules `Bse2Types`, `Bse2Lob` (the book-building specification),
    `Bse2Half` (`Orderbook_half`), `Bse2Walk` and `Bse2Take` (the book walk
    and its specification), `Bse2Orderbook` (`Orderbook`) and `Bse2Exchange`
    (`Exchange`).
- **BSE2 traders** (`BSE2/BSE2_trader_agents.py`). Module `Bse2Trader`
  models:
  - the `Trader` records (customer orders, live quotes, blotter, balance)
    and their updates;
  - `bookkeep`;
  - the quote rules of Giveaway and Shaver.
- **Price assignment** (`DAVE.py`, `assign_prices`). Module
  `PriceAssignment` models every split of a list of limit prices into the
  `num_a` chosen prices and the rest.

Python dicts keep insertion order, which the book-building code depends on.
They are modelled as `Dict(keys, vals)`: a sequence of distinct keys plus a
map. An overwrite keeps the key's position. Prices and quantities are
unbounded integers. Times and the average trade price are reals.

`sys.exit` and uncaught Python errors are modelled explicitly:
- `Option` results that are None;
- the `Fatal` outcome;
- the `Crashed` result;
- `ok` flags.

They are not excluded by preconditions. Where the code raises partway
through an update, the model leaves the state after the failure
unspecified.

Where the code disagrees with the design comments, the model follows the
code:
- `build_lob` in BSE2 sets the bid side's `best_price` to the *last*
  published level, which is the lowest bid (`BestAsWrittenIsWorstBid`).
  `add_lim_order` and `publish_lob` read the first level instead.
- `publish_lob` reports the lit orderbook's `last_trans_*` attributes, which
  nothing ever writes, so they are always None. `tape_update` writes the
  exchange's own `last_trans_*` attributes.
- `book_take`'s FOK/AON FAIL message carries `order.oid`, a separate field
  from `orderid` that the exchange never sets.
- An MKT walk stops after one trade at an unacceptable price (the loop
  re-tests `good_price` for every style). An IOC walk stops before such a
  trade.
- Some styles always end in an error in `process_order`:
  - AON appends to `pool.resting` (BSE2/BSE2_exchange.py:1008), a list
    `Orderbook.__init__` never creates (BSE2/BSE2_exchange.py:509-516);
  - LOO, MOO, LOC and MOC iterate over None messages;
  - XXX: with an order on a side, `process_order_XXX` reads `.tid` of the
    side's integer keys (BSE2/BSE2_exchange.py:594-600); with all sides
    empty, `consolidate_responses([[], []])` indexes a list with
    `'TraderMsgs'` (BSE2/BSE2_exchange.py:830-834);
  - ICE calls an undefined `DisplayQty`;
  - OCO/OSO with two LIM legs exit.

  These are `Fatal`. Any other OCO/OSO order returns nothing and consumes
  an order id.
- `bookkeep` looks only at the trader's first quote (`break` inside the
  search loop). A FILL or PART for any later quote exits.

## Model

| member | source | states |
|---|---|---|
| Basics.Put | tbse_exchange.py:91 | Assigning a key keeps the dict well formed; it grows by one exactly when the key was absent. |
| Basics.PutAssigns | tbse_exchange.py:91 | After the assignment the key holds the new value and every other key its old one. An existing key keeps its position; a new key is appended. |
| Basics.Remove | tbse_exchange.py:107-110 | Deleting a key keeps the dict well formed, shrinks it by one when the key was live and leaves it unchanged otherwise. |
| Basics.PutThenRemove | tbse_exchange.py:81-110 | Adding an order under a new key and deleting that key restores the original dict, order of keys included. |
| PriceLevels.GroupAt | tbse_exchange.py:51-63 | The dict built by the grouping loop holds, at each price, the level obtained by folding that price's orders in dict order. |
| PriceLevels.GroupWf | tbse_exchange.py:51-63 | The price-keyed lob is a well-formed dict (each price once). |
| PriceLevels.EntriesAtPrice | tbse_exchange.py:51-63 | An entry is listed at price p exactly when some order row has price p and that entry. |
| PriceLevels.SortAsc | tbse_exchange.py:38 | `sorted(self.lob)` is an ascending permutation of the prices. |
| PriceLevels.Project | tbse_exchange.py:38-40 | The anonymised list pairs every sorted price with that level's total quantity. |
| PriceLevels.AnonAscOrdered | tbse_exchange.py:32-40 | `lob_anon` lists every price of the lob exactly once, strictly ascending, each with its level's quantity. |
| PriceLevels.AnonOfGroup | tbse_exchange.py:42-65 | After `build_lob`, `lob_anon` lists exactly the prices some order has, strictly ascending, each with the sum of those orders' quantities. |
| Bse1Book.RowsAt | tbse_exchange.py:51-63 | An entry is at price p in the lob exactly when some live order yields that price and entry. |
| Bse1Book.PricesListed | tbse_exchange.py:42-65 | Every live order's price is published in `lob_anon`. |
| Bse1Book.BestOfBounds | tbse_exchange.py:66-72 | The best price is None exactly when `lob_anon` is empty. Otherwise it is a listed price at least as good as every listed price (highest bid, lowest ask). |
| Bse1Book.BestPriceIsExtreme | tbse_exchange.py:66-72 | The best price derived from the orders is None iff the side is empty, else the price of a live order that is at least as good as every live order's. |
| Bse1Book.BestOrderExists | tbse_exchange.py:66-72 | When a best price exists, some live order has it. |
| Bse1Book.BestTidIsFirstAtBest | tbse_exchange.py:73 | `best_tid` is the trader of the first order, in dict order, at the best price. |
| Bse1Book.SoleAtBest | tbse_exchange.py:73 | If one trader alone quotes the best price, `best_tid` is that trader. |
| Bse1Book.BestLevel | tbse_exchange.py:66-72 | The best price has a non-empty level whose first entry's trader is `best_tid`, a live trader. |
| Bse1Book.BestTidIsKey | tbse_exchange.py:66-75 | `best_tid` exists iff the side has orders, and it is then a key of the orders dict. |
| Bse1Book.EntryIsOrder | tbse_exchange.py:51-63 | Every entry of the lob belongs to a live order. |
| Bse1Book.NoCrashWhenPositive | tbse_exchange.py:112-145 | With positive quantities, `delete_best` raises iff the side is empty. |
| Bse1Book.OrderbookHalf.constructor | tbse_exchange.py:16-30 | A new side is empty, with its book type and worst price. |
| Bse1Book.OrderbookHalf.AnonymizeLob | tbse_exchange.py:32-40 | Rebuilds `lob_anon` as the ascending (price, quantity) list of the lob and changes nothing else. |
| Bse1Book.OrderbookHalf.BuildLob | tbse_exchange.py:42-79 | The lob is the orders grouped by price. `lob_anon` is its ascending projection. Best price and trader are read off it (last pair for bids, first for asks). |
| Bse1Book.OrderbookHalf.BookAdd | tbse_exchange.py:81-97 | Stores the order under its trader id, replacing that trader's previous order. Answers Addition iff the trader had no order. The cached book stays consistent. |
| Bse1Book.OrderbookHalf.BookDel | tbse_exchange.py:99-110 | Deletes the trader's order when present (no-op otherwise), keeping the cached book consistent. |
| Bse1Book.OrderbookHalf.RefreshBest | tbse_exchange.py:209-215 | Re-reading the best price and trader after a rebuild keeps the orders, and every cached field stays equal to what is derived from them, so the refresh changes nothing observable. |
| Bse1Book.OrderbookHalf.DeleteBest | tbse_exchange.py:112-145 | Raises exactly in the source's failing cases. Otherwise it removes exactly the best trader's order, returns that trader and sets `lob_depth` as the source does. |
| Bse1Book.OrderbookHalf.CrashFromFields | tbse_exchange.py:117-131 | The cached best fields agree with the orders. `delete_best` raises iff there is no best price, or the last unit of the only level is taken while `n_orders` stays positive. |
| Bse1Book.OrderbookHalf.TakeBest | tbse_exchange.py:117-145 | The non-failing path of `delete_best`: removes the best trader's order and sets `lob_depth`. |
| Bse1Book.ShrinkBest | tbse_exchange.py:117-140 | `lob_depth` after a deletion: unchanged unless the best level had quantity 1, then the remaining number of levels, or 0 when the side empties. |
| Bse1Book.ReadBest | tbse_exchange.py:66-75 | Reads the best price off `lob_anon` and its first trader off the lob; both exist or neither does. |
| Bse1Book.GroupByPrice | tbse_exchange.py:51-63 | The grouping loop computes exactly the specified lob. |
| Bse1Book.Largest | tbse_exchange.py:128 | `max` of the remaining prices is a member at least every other. |
| Bse1Book.Smallest | tbse_exchange.py:130 | `min` of the remaining prices is a member at most every other. |
| Bse1Exchange.AddedKept | tbse_exchange.py:175-198 | `add_order` keeps both sides keyed by trader id. |
| Bse1Exchange.Process | tbse_exchange.py:268-345 | Processing advances the quote id by one and appends exactly the trade (if any) to the tape, keeping both sides well formed. |
| Bse1Exchange.Match | tbse_exchange.py:286-345 | The matching step leaves the quote id and appends exactly its trade to the tape. |
| Bse1Exchange.IncomingSetsBest | tbse_exchange.py:286-318 | If the book was uncrossed and adding the order crosses it, the new order alone holds its side's best price and is the only order that crosses. |
| Bse1Exchange.ProcessKeepsBookUncrossed | tbse_exchange.py:268-345 | With positive quantities, an uncrossed book stays uncrossed and positive and processing never raises. A trade names the incoming trader as party2, at a price it accepts, and removes its order. Without a trade the order rests with its new quote id. |
| Bse1Exchange.CrossingOrderTrades | tbse_exchange.py:286-318 | An order that crosses an uncrossed book always trades, at a price it accepts, and does not rest. |
| Bse1Exchange.OwnSideAfterCross | tbse_exchange.py:286-318 | After a crossing add, the incoming order is its side's best and deletable, and no remaining order on its side crosses. |
| Bse1Exchange.CounterSideAfterCross | tbse_exchange.py:286-318 | The counterparty is the first order at the other side's best price; deleting it cannot raise and leaves no better price there. |
| Bse1Exchange.MatchCrossingShape | tbse_exchange.py:286-345 | A crossed book loses each side's best order and gains one trade. |
| Bse1Exchange.AddThenDelete | tbse_exchange.py:175-232 | `del_order` after `add_order` for a trader with no order on that side restores both sides and only adds the cancellation to the tape. |
| Bse1Exchange.Exchange.constructor | tbse_exchange.py:152-156 | A new exchange has empty sides with the system's worst prices, an empty tape and quote id 0. |
| Bse1Exchange.Exchange.CachedBests | tbse_exchange.py:188-197 | The cached best prices and traders equal those derived from the orders, exist iff the side has orders, and name a live trader. |
| Bse1Exchange.Exchange.AddOrder | tbse_exchange.py:175-198 | The state becomes `Added`: the order, stamped with the old quote id, replaces its trader's order on its side. Returns that id and Addition/Overwrite. |
| Bse1Exchange.Exchange.DelOrder | tbse_exchange.py:200-232 | The state becomes `Deleted`: the trader's order leaves its side and a cancellation is taped. |
| Bse1Exchange.Exchange.PublishLob | tbse_exchange.py:234-266 | The published view shows each side's best price, order count and ascending anonymised lob as derived from the orders, plus the tape and quote id. |
| Bse1Exchange.Exchange.ProcessOrder2 | tbse_exchange.py:268-345 | Raises iff `Process` fails; otherwise the new state and trade are `Process`'s, and the published view is the post-trade book. |
| Bse1Exchange.Exchange.MatchOrder | tbse_exchange.py:286-345 | The matching half of `process_order2` computes `Match`. |
| Bse1Exchange.Exchange.Strike | tbse_exchange.py:290-318 | On a crossed book: deletes both best orders, tapes and returns the trade, or raises exactly where `Match` does. |
| Bse1Exchange.Exchange.DeleteBests | tbse_exchange.py:297-300 | Deletes each side's best order; fails iff either deletion raises. |
| Bse1Exchange.DeleteBoth | tbse_exchange.py:297-314 | Two `delete_best` calls on distinct sides: each removes exactly its best trader's order, or the pair fails. |
| Coordinator.KilledKept | tbse.py:221-222 | Applying the kill queue keeps both sides keyed by trader. |
| Coordinator.KillsTaped | tbse.py:221-222 | Each kill appends one cancellation, in queue order, after the old tape. |
| Coordinator.DeletedGone | tbse.py:222 | After `del_order`, the trader has no order on that side, and absent traders stay absent. |
| Coordinator.KillsRemoved | tbse.py:221-222 | After the kills, no killed trader has an order on the killed order's side. |
| Coordinator.ResolvedStays | tbse.py:225-235 | A resolved customer order stays resolved. |
| Coordinator.MarkingRule | tbse.py:225-235 | A new customer order without a trade is recorded unresolved. A trade resolves the order and its counterparty. No other entry changes. |
| Coordinator.BroadcastOnce | tbse.py:236-237 | Broadcasting appends the item to every trader queue. |
| Coordinator.Coordinator.constructor | tbse.py:215 | Starts with no completed customer orders and one empty queue per trader. |
| Coordinator.Coordinator.ApplyKills | tbse.py:221-222 | The exchange state becomes the kills applied in queue order. |
| Coordinator.Coordinator.Send | tbse.py:236-237 | Every trader queue gets the item appended. |
| Coordinator.Coordinator.Record | tbse.py:233-237 | Marks the customer orders per the trade and broadcasts a trade only when there is one. |
| Coordinator.Coordinator.Admit | tbse.py:225-229 | Drops the order iff its customer order is resolved, otherwise records it as seen. |
| Coordinator.Coordinator.Forward | tbse.py:231-237 | Processes the order as `Process` specifies, raising iff it does. Marks completion and broadcasts the trade with the order stamped with the exchange's quote id (the `toid` that `add_order` writes on the same object, tbse_exchange.py:181) and the published book. |
| Coordinator.Coordinator.Step | tbse.py:215-237 | One loop pass: kills applied, order dropped iff resolved, then processed as `Process` on the killed state, with completion marked and the trade broadcast with the order carrying the quote id of the killed state. |
| Bse2Lob.StrLessTotal | BSE2/BSE2_exchange.py:167 | Python's string order on trader ids is total. |
| Bse2Lob.EntryLeTotal | BSE2/BSE2_exchange.py:167 | The list order on `[time, qty, tid, orderid]` entries is total. |
| Bse2Lob.InsertEntrySorted | BSE2/BSE2_exchange.py:167 | Inserting into a sorted level keeps it sorted. |
| Bse2Lob.SortEntries | BSE2/BSE2_exchange.py:167 | `orderlist.sort()` returns a sorted permutation of the level. |
| Bse2Lob.SortedByArrival | BSE2/BSE2_exchange.py:167 | A sorted level is in arrival-time order. |
| Bse2Lob.SumQtySorted | BSE2/BSE2_exchange.py:156-167 | Sorting a level keeps its total quantity. |
| Bse2Lob.SortedPricesBestFirst | BSE2/BSE2_exchange.py:170-186 | The price order is best first (descending bids, ascending asks) and lists exactly the distinct prices. |
| Bse2Lob.LevelsAt | BSE2/BSE2_exchange.py:164-168 | Each built row pairs its price with that price's orders, sorted. |
| Bse2Lob.RemovedEntries | BSE2/BSE2_exchange.py:432 | Deleting an order removes exactly its entry from the book and its quantity from the book's total. |
| Bse2Lob.UpdatedEntries | BSE2/BSE2_exchange.py:424 | Re-quantifying an order swaps exactly its entry and changes the total by the difference. |
| Bse2Lob.BuiltLevels | BSE2/BSE2_exchange.py:143-186 | `lob` and `lob_anon` line up row by row, best price first. Every level is non-empty and time-sorted and holds exactly the live orders at its price, with its total quantity. |
| Bse2Lob.BuiltPrices | BSE2/BSE2_exchange.py:178-186 | A price is published iff some live order has it. |
| Bse2Lob.BuiltMirrors | BSE2/BSE2_exchange.py:143-168 | The lob holds exactly the live orders' entries, levels non-empty. |
| Bse2Lob.BestAsWrittenIsWorstBid | BSE2/BSE2_exchange.py:192-196 | With two or more bid levels, `build_lob` records the lowest bid as the bid side's `best_price`, strictly below the top of the book. |
| Bse2Lob.BestAskIsLowest | BSE2/BSE2_exchange.py:196 | For asks the recorded `best_price` is the lowest ask. |
| Bse2Lob.BuiltRanked | BSE2/BSE2_exchange.py:164-173 | The built lob ranks every live order by price, best first, then by arrival within a price. |
| Bse2Lob.FrontPriority | BSE2/BSE2_exchange.py:381-386 | The first entry of the lob is a live order at the best price that has price-time priority over every live order. |
| Bse2Half.GroupByPrice | BSE2/BSE2_exchange.py:150-162 | The grouping loop computes the specified price-keyed dict. |
| Bse2Half.ListLevels | BSE2/BSE2_exchange.py:164-168 | The level loop builds the specified rows. |
| Bse2Half.Anonymize | BSE2/BSE2_exchange.py:178-186 | The anonymising loop builds the specified (price, quantity) list. |
| Bse2Half.Build | BSE2/BSE2_exchange.py:143-198 | `build_lob` computes the specified lob and `lob_anon`, and the best price as written. |
| Bse2Half.LiveListed | BSE2/BSE2_exchange.py:150-168 | Every live order is listed at its price. |
| Bse2Half.ListedLive | BSE2/BSE2_exchange.py:150-168 | Every listed entry is a live order at that row's price. |
| Bse2Half.AnonFrontBest | BSE2/BSE2_exchange.py:552-557 | On a non-empty side, `lob_anon[0][0]` is a live order's price, at least as good as every live order's. |
| Bse2Half.FrontPrice | BSE2/BSE2_exchange.py:552-557 | Reads that best price. |
| Bse2Half.AppendedEntries | BSE2/BSE2_exchange.py:207 | Adding an order under a new id appends its entry to the book. |
| Bse2Half.AddedQty | BSE2/BSE2_exchange.py:207 | Storing an order changes the book's total by its quantity less any replaced order's. |
| Bse2Half.MeasureDepth | BSE2/BSE2_exchange.py:312-317 | The depth loop sums the quantities of the front levels at acceptable prices. |
| Bse2Half.TradeFront | BSE2/BSE2_exchange.py:381-469 | One pass of the walk computes the specified match against the front order. |
| Bse2Half.WalkBook | BSE2/BSE2_exchange.py:356-475 | The `while` loop computes the specified walk. |
| Bse2Half.TakeSide | BSE2/BSE2_exchange.py:256-502 | `book_take` on values: computes `Take`. It walks iff the initial checks pass and keeps the orders keyed by id. |
| Bse2Half.Refuse | BSE2/BSE2_exchange.py:304-332 | The initial checks fail exactly when the side is empty, or an FOK/AON order lacks depth, or an IOC order has none. |
| Bse2Half.Conclude | BSE2/BSE2_exchange.py:356-502 | Walk then closing message compute the specified result. |
| Bse2Half.Closing | BSE2/BSE2_exchange.py:482-490 | After the walk, the taker gets FAIL if nothing traded, PART with the revised order if some did, nothing more if filled. |
| Bse2Half.OrderbookHalf.constructor | BSE2/BSE2_exchange.py:60-105 | A new side is empty with no best price, `n_orders` None and empty pending lists. |
| Bse2Half.OrderbookHalf.BuildLob | BSE2/BSE2_exchange.py:143-201 | Rebuilds the lob from the orders and sets `best_price` as written. |
| Bse2Half.OrderbookHalf.BookAdd | BSE2/BSE2_exchange.py:203-211 | Stores the order under its id, sets `n_orders` and rebuilds. |
| Bse2Half.OrderbookHalf.AddAndPrice | BSE2/BSE2_exchange.py:546-557 | After the add, `best_price` is `lob_anon[0][0]`, at least as good as every live order. |
| Bse2Half.OrderbookHalf.BookCan | BSE2/BSE2_exchange.py:213-254 | Fails iff the id is not live. Otherwise deletes it and returns the CAN message and tape event with the deleted quantity. |
| Bse2Half.OrderbookHalf.BookTake | BSE2/BSE2_exchange.py:256-502 | The response and the remaining orders are `Take`'s. `best_price` is rebuilt unless the initial checks fail. |
| Bse2Take.DepthOfBook | BSE2/BSE2_exchange.py:312-317 | The depth from `lob_anon` equals the quantity at acceptable prices at the front of the lob. |
| Bse2Take.EmptySide | BSE2/BSE2_exchange.py:306 | The lob is empty iff the side has no orders. |
| Bse2Take.TakeRefused | BSE2/BSE2_exchange.py:304-332 | A hopeless order changes nothing, tapes nothing and gets one FAIL with no transactions. |
| Bse2Take.TakeConserves | BSE2/BSE2_exchange.py:256-502 | Taking only removes or reduces orders. The side loses exactly the quantity traded on the tape, and the tape holds only trades. |
| Bse2Take.TakeTold | BSE2/BSE2_exchange.py:400-490 | An order that passes the checks hears about itself exactly once. FILL iff fully traded, FAIL iff nothing traded, else PART with the remainder; the reported transactions add up to the traded quantity. |
| Bse2Take.TakePriced | BSE2/BSE2_exchange.py:366-379 | Every trade is at a price the taker accepts, except possibly the last for an MKT/FOK/AON order; for IOC all of them. |
| Bse2Take.TakeAllOrNothing | BSE2/BSE2_exchange.py:319-327 | FOK/AON: without enough depth nothing changes and nothing trades; with it, exactly the order's quantity trades, all at acceptable prices. |
| Bse2Take.TakeKeptPrices | BSE2/BSE2_exchange.py:421-432 | Orders left on the book were there before, at their old prices. |
| Bse2Walk.Walked | BSE2/BSE2_exchange.py:366-475 | The walk ends with the loop condition false, the book mirrored and no new orders. |
| Bse2Walk.RemoveFront | BSE2/BSE2_exchange.py:459-469 | Consuming the front order removes exactly it from the orders and the lob. |
| Bse2Walk.ReduceFront | BSE2/BSE2_exchange.py:419-424 | Partly consuming the front order leaves it at the front with the reduced quantity. |
| Bse2Walk.PartialShape | BSE2/BSE2_exchange.py:400-427 | A front order larger than the remainder is reduced and the taker is filled. |
| Bse2Walk.RemovalShape | BSE2/BSE2_exchange.py:429-469 | A front order no larger than the remainder is deleted. |
| Bse2Walk.MatchCounts | BSE2/BSE2_exchange.py:400-471 | Each match adds one transaction at the front price; filled plus remaining is preserved. |
| Bse2Walk.MatchBookQty | BSE2/BSE2_exchange.py:400-471 | Each match moves quantity from the book to the transactions. |
| Bse2Walk.MatchMsgs | BSE2/BSE2_exchange.py:412-454 | A filling match sends the taker FILL plus one message to the maker. Otherwise the maker alone gets FILL. |
| Bse2Walk.WalkedTold | BSE2/BSE2_exchange.py:400-475 | The walk sends the taker nothing while it is unfilled, and exactly one FILL carrying every transaction once it is filled. |
| Bse2Walk.WalkedConserves | BSE2/BSE2_exchange.py:366-475 | The walk conserves quantity and tapes one matching trade per transaction. |
| Bse2Walk.WalkedPriced | BSE2/BSE2_exchange.py:366-379 | All transactions but the last are at acceptable prices, and the last too while `good_price` holds or for IOC. |
| Bse2Walk.WalkedKeptPrices | BSE2/BSE2_exchange.py:421-432 | The walk never changes a price. |
| Bse2Walk.WalkedCovered | BSE2/BSE2_exchange.py:366-475 | When the acceptable depth covers the order, it stays covered. |
| Bse2Walk.CoveredFilled | BSE2/BSE2_exchange.py:366 | A covered walk ends filled. |
| Bse2Orderbook.RestApart | BSE2/BSE2_exchange.py:641-663 | A LIM order that does not cross rests without crossing the book. |
| Bse2Orderbook.TakeApart | BSE2/BSE2_exchange.py:609-626 | Taking from the opposite side keeps the book uncrossed. |
| Bse2Orderbook.Orderbook.constructor | BSE2/BSE2_exchange.py:509-516 | A pool has empty sides with the system's worst prices. |
| Bse2Orderbook.Orderbook.AddLimOrder | BSE2/BSE2_exchange.py:546-558 | Stores the order on its side; `best_price` is `lob_anon[0][0]`, at least as good as every live order. The side's other fields are `Repriced`: `n_orders` counts its orders and the waiting lists are kept. |
| Bse2Orderbook.Orderbook.ProcessOrderCan | BSE2/BSE2_exchange.py:560-581 | Fails iff the id is not live on the order's side, changing nothing; otherwise deletes it with the CAN message and tape event, and the side is `Recounted`: `n_orders` recounted, `best_price` rebuilt, waiting lists kept. |
| Bse2Orderbook.Orderbook.ProcessOrderTake | BSE2/BSE2_exchange.py:609-626 | The order takes from the opposite side as `Take` specifies; that side's other fields are `Retaken`: `best_price` rebuilt unless the order fails before the walk, `n_orders` and the waiting lists kept. |
| Bse2Orderbook.Orderbook.ProcessOrderLim | BSE2/BSE2_exchange.py:628-668 | A crossing order is taken as IOC from the opposite side (that side `Retaken`, its own side wholly unchanged); otherwise it rests on its own side (`Repriced`, with `add_lim_order`'s `lob_anon[0][0]` overwrite), the opposite side wholly unchanged. Keeps the book uncrossed. |
| Bse2Orderbook.Orderbook.ProcessOrderPending | BSE2/BSE2_exchange.py:670-699 | LOO/MOO go on `on_open`, LOC/MOC on `on_close`; anything else exits; live orders, `best_price` and `n_orders` unchanged. |
| Bse2Exchange.TotalFees | BSE2/BSE2_exchange.py:1067-1071 | The fee loop sums the fees of the messages addressed to the trader. |
| Bse2Exchange.FeesAppend | BSE2/BSE2_exchange.py:1069-1071 | Fees over concatenated messages add up. |
| Bse2Exchange.FeesUniform | BSE2/BSE2_exchange.py:299 | With one fee per message, the trader pays that fee times the number of its messages. |
| Bse2Exchange.Summarise | BSE2/BSE2_exchange.py:1113-1134 | The summary loop computes `SummaryOf`: None without traded quantity, else total quantity at the volume-weighted price. |
| Bse2Exchange.CostAtMost | BSE2/BSE2_exchange.py:1119-1122 | With trades at or below a price, total cost is at most that price times total quantity. |
| Bse2Exchange.CostAtLeast | BSE2/BSE2_exchange.py:1119-1122 | With trades at or above a price, total cost is at least that price times total quantity. |
| Bse2Exchange.SummaryAtMost | BSE2/BSE2_exchange.py:1125-1134 | The average price is at most any price bounding every trade. |
| Bse2Exchange.SummaryAtLeast | BSE2/BSE2_exchange.py:1125-1134 | The average price is at least any price bounding every trade from below. |
| Bse2Exchange.IocSummaryWithinLimit | BSE2/BSE2_exchange.py:1113-1134 | An IOC order's average trade price is no worse than its limit. |
| Bse2Exchange.LastOfIsLast | BSE2/BSE2_exchange.py:909-916 | After taping events, the last-trade fields hold the last trade's time, price and quantity, or stay as they were without a trade. |
| Bse2Exchange.TailOfDepth | BSE2/BSE2_exchange.py:1171-1174 | `tape[-d:]` is the last d events, or the whole tape when d is 0 or too large. |
| Bse2Exchange.CrossesReaches | BSE2/BSE2_exchange.py:646-656 | Comparing with `lob[0][0]` of the opposite side is the same as some live opposite order being at an acceptable price. |
| Bse2Exchange.RouteApart | BSE2/BSE2_exchange.py:978-1051 | Processing any order keeps a pool's book uncrossed. |
| Bse2Exchange.RecountedCounts | BSE2/BSE2_exchange.py:143-209 | After `book_add` or `book_CAN` rebuilds a side, `n_orders` is its number of orders and `best_price` is None exactly when it has none. |
| Bse2Exchange.RepricedBest | BSE2/BSE2_exchange.py:546-558 | After `add_lim_order`'s overwrite, `best_price` is a live price at least as good as every order of the side. |
| Bse2Exchange.RouteRecounts | BSE2/BSE2_exchange.py:203-242 | A live cancel or a resting limit order leaves its side's `n_orders` equal to the count of the side's orders and `best_price` absent iff the side is empty; after a rest it is the best live price. |
| Bse2Exchange.RouteKeepsWaiting | BSE2/BSE2_exchange.py:256-502 | No routed order touches either side's `on_open`/`on_close`, and a take leaves the opposite side's `n_orders` as it was, though orders leave that side. |
| Bse2Exchange.Hand | BSE2/BSE2_exchange.py:978-1051 | A pool handles an order: fatal exactly for the failing styles and for a CAN of a dead id; otherwise the sides' orders and the response are `Route`'s and the sides' other fields are `CacheRoute`'s. |
| Bse2Exchange.HandCan | BSE2/BSE2_exchange.py:978-981 | CAN: the response is missing iff the id is dead; the result is `CanRoute`'s and the sides' other fields `CanCaches`'. |
| Bse2Exchange.HandLim | BSE2/BSE2_exchange.py:1002-1004 | LIM/GFD: the result is `LimRoute`'s and the sides' other fields `LimCaches`'. |
| Bse2Exchange.HandTake | BSE2/BSE2_exchange.py:1006-1009 | MKT/FOK/IOC: the result is `TakeRoute`'s and the sides' other fields `TakeCaches`'. |
| Bse2Exchange.Exchange.constructor | BSE2/BSE2_exchange.py:787-794 | A new exchange has empty lit and dark pools named after it, an empty tape, no trader records, order id 0 and is closed. |
| Bse2Exchange.Exchange.TapeUpdate | BSE2/BSE2_exchange.py:901-917 | Appends the event. A trade updates the last-trade fields and is returned; other events leave them and return nothing. |
| Bse2Exchange.Exchange.RecordTape | BSE2/BSE2_exchange.py:1080-1082 | Appends every event in order and leaves the last-trade fields at the last trade. |
| Bse2Exchange.Exchange.Register | BSE2/BSE2_exchange.py:948-953 | A new trader gets a record with balance 0 and its registration time; known traders are unchanged. The result is `Enrolled`: the trader is registered and every other record is as before. |
| Bse2Exchange.Exchange.Credit | BSE2/BSE2_exchange.py:1074 | Adds the fees to the trader's balance and changes no other record. |
| Bse2Exchange.Exchange.Dispatch | BSE2/BSE2_exchange.py:958-1051 | Numbers the order (not CAN/XXX) and routes it to the pool chosen by block size. Fatal exactly when the source fails; otherwise the routed pool's sides are `Route`'s and their other fields `CacheRoute`'s. The other pool is untouched. |
| Bse2Exchange.Exchange.ProcessOrder | BSE2/BSE2_exchange.py:934-1138 | Fatal exactly when the source fails. Otherwise the pool's sides are `Route`'s, their `best_price`, `n_orders` and waiting lists `CacheRoute`'s, and the response's events are taped. The `open` flag is unchanged. The trader is credited its fees and the result is the trade summary and messages, or None/None. The tape gains the response's events and the last-trade fields are its last trade, both unchanged on None/None. The other pool is untouched. A new trader gets `TraderRecord(tid, time, ...)`, an existing one keeps its fields but its balance, and every other trader's record is unchanged. |
| Bse2Exchange.Exchange.Trade | BSE2/BSE2_exchange.py:958-1136 | For a registered trader: fatal exactly when the source fails; otherwise the pool's sides and other fields are `Route`'s and `CacheRoute`'s (`Routed`), the result, tape and last-trade fields follow the response, and only the trader's balance changes among the records, by its fees. The other pool is untouched. |
| Bse2Exchange.Exchange.Settle | BSE2/BSE2_exchange.py:1056-1138 | With no response, returns None/None and changes nothing; otherwise credits fees, tapes the events, updates the last-trade fields and returns the summary and messages. |
| Bse2Exchange.PublishedBest | BSE2/BSE2_exchange.py:1142-1154 | Each published best price is None iff that lit side is empty, else a live price at least as good as every live order's. |
| Bse2Trader.WithoutAssignment | BSE2/BSE2_trader_agents.py:56-67 | No kept customer order has the deleted id. |
| Bse2Trader.WithoutAssignmentExact | BSE2/BSE2_trader_agents.py:62-67 | Every customer order without that id is kept, as often as before. |
| Bse2Trader.WithoutAssignmentInOrder | BSE2/BSE2_trader_agents.py:62-67 | The kept customer orders keep their order. |
| Bse2Trader.AssignmentForgotten | BSE2/BSE2_trader_agents.py:56-67 | A customer order is kept iff it was there and has another id. |
| Bse2Trader.WithoutQuote | BSE2/BSE2_trader_agents.py:95-106 | No kept quote has the deleted order id. |
| Bse2Trader.WithoutQuoteExact | BSE2/BSE2_trader_agents.py:101-106 | Every quote with another id is kept, as often as before. |
| Bse2Trader.WithoutQuoteInOrder | BSE2/BSE2_trader_agents.py:101-106 | The kept quotes keep their order. |
| Bse2Trader.QuoteForgotten | BSE2/BSE2_trader_agents.py:95-106 | A quote is kept iff it was there and has another id. |
| Bse2Trader.RevisedExact | BSE2/BSE2_trader_agents.py:77-86 | Revision sets the quantity of the matching customer orders and keeps every other one in place. |
| Bse2Trader.Admitted | BSE2/BSE2_trader_agents.py:48-50 | The new customer order goes last. Below the limit it is simply appended, and a list within the limit stays within it. |
| Bse2Trader.Trader.constructor | BSE2/BSE2_trader_agents.py:13-29 | A new trader has its balance, no records, one customer order allowed and no last quote. |
| Bse2Trader.Trader.AddCustOrder | BSE2/BSE2_trader_agents.py:40-53 | Answers LOB_Cancel iff a quote is live, and admits the customer order. |
| Bse2Trader.Trader.DelCustOrder | BSE2/BSE2_trader_agents.py:56-67 | Removes the customer orders with that id. |
| Bse2Trader.Trader.ReviseCustOrder | BSE2/BSE2_trader_agents.py:70-92 | Fails iff there is no revised order but a matching customer order exists (`None.qty`); otherwise revises the quantity. |
| Bse2Trader.Trader.DelExchOrder | BSE2/BSE2_trader_agents.py:95-106 | Removes the quotes with that order id. |
| Bse2Trader.Trader.BookTrades | BSE2/BSE2_trader_agents.py:140-183 | Exits iff the trader's age is zero or some transaction loses money; otherwise adds the profits and counts the trades. |
| Bse2Trader.Trader.SettleQuote | BSE2/BSE2_trader_agents.py:140-213 | The FILL/PART handling computes `Settle`. |
| Bse2Trader.Trader.Bookkeep | BSE2/BSE2_trader_agents.py:109-215 | `bookkeep` computes `Bookkept`, failing exactly where the source exits. |
| Bse2Trader.Trader.GiveawayGetOrder | BSE2/BSE2_trader_agents.py:237-253 | Quotes the first customer order at its limit price, recording it as the last quote; nothing without customer orders. |
| Bse2Trader.GiveawayQuote | BSE2/BSE2_trader_agents.py:242-251 | The quote exists iff there is a customer order, at its side, price and quantity. |
| Bse2Trader.Trader.ShaverGetOrder | BSE2/BSE2_trader_agents.py:289-318 | Quotes the first customer order at the shaved price; nothing without customer orders. |
| Bse2Trader.ShaverPrice | BSE2/BSE2_trader_agents.py:299-315 | A bid is one above the best bid but never above its limit, or the worst price on an empty side; asks mirror this. |
| Bse2Trader.CancelKeepsBalance | BSE2/BSE2_trader_agents.py:118-130 | A CAN message drops the quote, keeps balance and customer orders and is logged on the blotter. |
| Bse2Trader.FillBooksProfit | BSE2/BSE2_trader_agents.py:140-183 | A settled FILL/PART adds the non-negative profit of every transaction and logs the new balance. |
| Bse2Trader.ProfitSumNonNegative | BSE2/BSE2_trader_agents.py:174-179 | Profits that are each non-negative add up non-negatively. |
| Bse2Trader.LossIsFatal | BSE2/BSE2_trader_agents.py:174-179 | Any loss-making transaction makes `bookkeep` exit. |
| Bse2Trader.FillForgetsBoth | BSE2/BSE2_trader_agents.py:188-199 | A FILL forgets the customer order and the quote. |
| Bse2Trader.PartRevises | BSE2/BSE2_trader_agents.py:201-213 | A PART revises the customer order's quantity; an IOC quote is also forgotten. |
| Bse2Trader.LaterQuoteNotFound | BSE2/BSE2_trader_agents.py:147-156 | A FILL/PART for a quote other than the first makes `bookkeep` exit. |
| Bse2Trader.HeadQuoteSuffices | BSE2/BSE2_trader_agents.py:147-151 | With at most one live quote, the search finds a quote iff one has the id. |
| PriceAssignment.IndexOf | DAVE.py:12 | The first position of the value. |
| PriceAssignment.RemoveFirst | DAVE.py:12 | `list.remove` deletes the first occurrence only. |
| PriceAssignment.Rest | DAVE.py:16-18 | Removing each chosen price leaves the multiset difference. |
| PriceAssignment.CombosShape | DAVE.py:15 | Each combination has `num_a` prices taken in list order. |
| PriceAssignment.CombosCount | DAVE.py:15 | There are C(n, num_a) combinations. |
| PriceAssignment.AssignPrices | DAVE.py:5-22 | The loops build exactly the specified list, None for a negative size. |
| PriceAssignment.SingleLoop | DAVE.py:8-13 | The `num_a == 1` loop pairs each price with the rest. |
| PriceAssignment.ComboLoop | DAVE.py:15-20 | The combinations loop pairs each combination with the rest. |
| PriceAssignment.RemoveEach | DAVE.py:16-18 | The removal loop computes the rest. |
| PriceAssignment.SplitsPartition | DAVE.py:5-22 | Each split has `num_a` prices on one side and together they are the input multiset. |
| PriceAssignment.SplitsCount | DAVE.py:5-22 | There are C(n, num_a) splits. |
| PriceAssignment.SingleBranchAgrees | DAVE.py:8-20 | The special case `num_a == 1` agrees with the combinations branch. |

## Left out

- Verbose printing, `__str__`, `tape_dump` and `dump_tape`: output only.
- Threads, queues and the wall clock in `run_exchange`: one loop pass is a step with virtual time as a parameter. Ending the loop (`start_event`) is not modelled.
- ACK messages in BSE2 `process_order`: built and never returned.
- The exchange part of `BSE.py` (BSE.py:223-332) is not modelled on its own. It stamps the quote id into `order.qid` rather than `order.toid`. Its trade record carries no `coid` or `counter`, and `process_order2` returns the record alone, without a published book (BSE.py:317-330).
- Orders as mutable objects: the source revises the incoming order in place (its `ostyle`, `orderid` and `qty`); the model passes revised copies, so aliasing between the trader's and the exchange's copies is not captured.
- `mkt_open`, `mkt_close`, `consolidate_responses`, `process_order_XXX`, `process_order_OXO`, `process_order_ICE`: XXX, OCO/OSO and ICE are modelled only by the outcome they have in `process_order`; opening and closing auctions are not modelled.
- Mid-price and micro-price in `publish_lob`: float arithmetic.
- The `resting` list for AON orders and `ob_tape`: AON fails on the list's first use, since no orderbook creates it, and `ob_tape` is never written.
- BSE2 `lob` and `lob_anon` are derived from the orders by functions rather than stored fields.
- System minimum and maximum prices are constructor parameters.
- Float quantities and prices: the model uses integers, except the average trade price.
- Trader strategies other than Giveaway and Shaver (ZIC, ISHV, Sniper, ZIP) and `respond`/`mutate`: they use randomness or are no-ops.
- `profitpertime`: float division by the trader's age; `BookTrades` only models the exit when the age is zero.
- DAVE.py's driver after `assign_prices`: script-level output.
- Bse2Exchange.IocSummaryWithinLimit: requires non-negative trade quantities, which book_take produces when resting quantities are positive.
- Bse2Exchange.Exchange.ProcessOrder, Bse2Exchange.Hand: in the fatal case the routed pool, the tape and the last-trade fields are left unspecified, as the source stops the program (ProcessOrder still states the order id, the untouched other pool and the trader registration).
