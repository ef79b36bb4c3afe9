# A verified model of the NDFEX exchange

NDFEX is a small exchange: clients talk to an order entry handler over TCP, the handler and the matching engine's
broker exchange payloads over two queues, the broker runs one order ladder per symbol, publishes market data and
clearing fills by multicast, and clients rebuild books from that feed, late joiners with the help of a snapshot writer.
This project models that chain in Dafny and proves what its parts promise, over every book, every request, every
interleaving and every log. `dafny verify dfyconfig.toml` checks all of it.

Code that changes state is modelled by classes whose methods do what the program's do (`OrderLadder` with its level
maps, doubly linked lists, hash index and node pool; `MatchingEngineBroker`, `ClientHandler`, `OrderBook`,
`SnapshotWriter`, `MDClient`, `MarketDataPublisher`, `StreamParser`, `ClearingClient`). Each is proved against functions
on values, and the theorems about runs are proved about those functions.

| files | what they hold |
|---|---|
| Types, BookSpec, BookOrder, QueueTheorems | the ladder as a value, price-time order, queues at one price |
| PriceLevels, OrderLadder | the pointer structure and its refinement of that value |
| MatchTheorems, BookTheorems, OrderAccounts, Settlement | what matching achieves, what every operation keeps, conservation to the end of an order's life |
| MarketData, Replication, OrderBook, ReplicaLevels, Market | messages, and replicas that follow them |
| BrokerSpec, BrokerTheorems, BrokerLog, Tape, Broker, BrokerGaps | the broker over all symbols and over every run, and the runs in which it misleads |
| Clearing, ClearingLedger | two-legged fills and the clearing house's books |
| HandlerSpec, Admission, ClientHandler, Lifecycle, Forwarding, Cancellation, CancellationGaps | order entry, and handler and broker interleaved |
| Delivery, FillsHeard | what clients are told, against what the ladders reported |
| SnapshotWriter, SnapshotAgreement, RecoverySpec, Recovery, RecoveryLevels, LateJoin, RecoveryGaps, MDClient | snapshots and late joining |
| Codec, WireLayout, Publisher, StreamParser | bytes: packets sent, streams received |
| EndToEnd | the interleaving theorem, the log theorem and the late joiner put together |

## What fails, and exactly when

* A same-price amend of a partly filled order stores the total quantity but reports the total less what is filled
  (matching_engine/order_ladder.H:279-283). `AmendMisleads`: offer ten, sell four, amend to eight; the ladder has eight, its
  replicas four. `RequestFollowed`: replicas lose the ladder exactly on such an amend. Together with an amend after a
  re-price (which restarts `filled_quantity`, line 177) it is exactly what breaks the conservation law: `AmendForgets`, and
  `AmendsForgetFills` for a run of either kind.
* The broker's owner table is keyed by 32 bits, ids have 64 (matching_engine/me_broker.H:189). `TwinTakesTheFill`: client 7
  offers under id 1, client 8 bids under id 2^32 + 1, and a trade with the offer is cleared to client 8. `AttributionExact`
  and, over runs, `RunAttributed`: passive fills go to the right client exactly when a new id's low half is never that of
  another client's resting order. The clearing house balances all the same (`HouseBalances`).
* Cancel on disconnect fails for a login over a live session (order_entry/oe_client_handler.cpp:123-124): client 7 logs in
  and trades, client 8 logs in on the same socket, the socket closes (`OverwrittenSessionStrands`); `SessionLossExact`
  gives the condition. It also fails when a client id is used again before the close of the first order under it has come
  back (lines 316-319 and 333-335): `ReusedIdStrands` is the run, `TrackedStays` the condition, step by step.
* Late join keeps one cursor for all symbols (bots/md_client.cpp:141). `MixedNumbersGoWrong` is an input with two
  announcement numbers; `StartExact` says loading is right exactly when no symbol changed between its number and the cursor.
* A symbol once flagged complete stays flagged when the next announcement empties its buffer (bots/md_client.cpp:141-154).
  `FlagOutlivesSnapshot` is the run; `DeliveredWhenSettled`: the snapshot is whole exactly when both counters stand at zero.
* A trade in a symbol without a book drops the rest of its packet (bots/md_client.cpp:373-377), after which every packet is
  a gap: `UncoveredTradeStalls`. `PacketTakenWhole` says exactly when a packet is taken to its end.
* A request that claims fewer bytes than its record shows its handler whatever has arrived behind it
  (order_entry/oe_stream_parser.H:71-84). `ChunkingExact`: chunking is invisible exactly when only a last message with
  nothing behind it is short. A claimed length of zero is the only way the loop does not end (`LoopEnds`).
* A clearing client that misses one number books nothing any more (`GapIsFatal`), and so does every client once the
  32-bit number wraps (`FeedIsBooked`), which is between the two legs of a match: `FeedBalances` gives the condition on that
  match under which a symbol is out of balance from then on.
* Replica levels are 32 bits wide: `StreamExact`, `RunLevelsExact`: exact all along exactly when the totals fit.

## Model

| member | source | states |
|---|---|---|
| PriceLevelLists.OrderPool.Allocate | matching_engine/order_ladder.H:50-57 | a node is handed out that is not free any more and was free or new; nothing else leaves or enters the free list but a fresh block |
| PriceLevelLists.OrderPool.Deallocate | matching_engine/order_ladder.H:59-66 | a node comes back unlinked, once, and the free list stays free of duplicates |
| PriceLevelLists.PriceLevel.Unlink | matching_engine/order_ladder.H:217-233 | relinking head, tail and neighbours removes exactly the k-th node of the list and leaves a consistent list of the others |
| PriceLevelLists.BookSide.Add | matching_engine/order_ladder.H:184-198 | a node joins the tail of its price's list, or a new level, and the side's priority order is the old one with the order inserted behind its equals |
| OrderLadders.OrderLadder.constructor | matching_engine/order_ladder.H:91-91 | an empty ladder is valid and owns everything it uses |
| OrderLadders.OrderLadder.HandleDeleteOrder | matching_engine/order_ladder.H:205-237 | an unknown id is rejected and changes nothing; a known one leaves the index, its list and its side, its node goes back to the pool, and the level may be left empty |
| OrderLadders.OrderLadder.Match | matching_engine/order_ladder.H:307-357 | the nested loops end, keep index, lists, levels and pool consistent and disjoint, and do to the side, the quantity and the callbacks what greedy matching on the priority order does |
| OrderLadders.OrderLadder.HandleNewOrder | matching_engine/order_ladder.H:130-201 | entry on pointers equals entry on the abstract book: book, callbacks in order, quantity left and exception |
| OrderLadders.OrderLadder.NewOrder | matching_engine/order_ladder.H:119-126 | the same for the public operation, from any valid ladder to a valid ladder |
| OrderLadders.OrderLadder.DeleteOrder | matching_engine/order_ladder.H:241-264 | delete on pointers equals delete on the abstract book, the emptied level being dropped |
| OrderLadders.OrderLadder.ModifyOrder | matching_engine/order_ladder.H:267-303 | amend on pointers equals amend on the abstract book in all its branches: reject, delete, in place, re-price, side change |
| OrderLadders.OrderLadder.IndexExact | matching_engine/order_ladder.H:82-85 | the hash index holds an id exactly when the book does, and leads to a node with that very order |
| QueueTheorems.RestingJoinsTheBack | matching_engine/order_ladder.H:130-200 | a new order fills the lesser of its quantity and all that crosses; what is left, if it may rest, is appended to the queue of its price, and no other queue of its side changes |
| QueueTheorems.EntryReports | matching_engine/order_ladder.H:145-161 | an entry reports its match, then its acceptance with what has come to rest, or, immediate-or-cancel with something left, its end |
| QueueTheorems.DeleteTakesOut | matching_engine/order_ladder.H:205-277 | a delete, or an amend to no more than is filled, removes the order from its place, leaves the order of all others alone and reports it closed |
| QueueTheorems.RejectedExactly | matching_engine/order_ladder.H:241-277 | a request is rejected exactly when its order does not rest, and then changes and reports nothing else |
| QueueTheorems.AmendKeepsPlace | matching_engine/order_ladder.H:279-284 | a request that amends an order at its price and side overwrites its quantity where it stands in its queue; every other queue is as it was |
| QueueTheorems.RepriceGoesToTheBack | matching_engine/order_ladder.H:286-302 | an order re-priced or moved to the other side leaves its queue and, with what it has neither filled before nor now, goes to the back of its new one |
| MatchTheorems.MatchFillsAllItCan | matching_engine/order_ladder.H:307-357 | the incoming order trades the lesser of its quantity and everything resting at crossing prices |
| MatchTheorems.MatchSharesByPriority | matching_engine/order_ladder.H:316-347 | every resting order trades exactly its share after everything ahead of it, and keeps the rest |
| MatchTheorems.MatchTradesInPriority | matching_engine/order_ladder.H:319-340 | trades come from the front of the queue one after the other, each at the resting price and within the limit |
| MatchTheorems.MatchReports | matching_engine/order_ladder.H:319-340 | all callbacks of a match: for each order that trades, from the front, its trade and two fills, of exactly its share, at its price, flagged last exactly when they are |
| MatchTheorems.MatchExhausts | matching_engine/order_ladder.H:311-314 | with quantity left over nothing that crosses is left resting |
| MatchTheorems.MatchConserves | matching_engine/order_ladder.H:325-344 | what the incoming order is told it filled is what it no longer has |
| BookTheorems.ApplyKeeps | matching_engine/order_ladder.H:130-303 | every request keeps both sides in price-time order with unique ids, apart, uncrossed and free of immediate-or-cancel orders; an admissible one throws nothing |
| BookTheorems.NewOrderThrows | matching_engine/order_ladder.H:132-170 | zero quantity is exactly the first exception; the second is thrown exactly for an order larger than all it can trade against that may rest and meets its own id, on its side or out of reach on the other |
| BookTheorems.ModifyNeverThrows | matching_engine/order_ladder.H:267-303 | no amend of a well formed book throws |
| BookTheorems.RestingIsNotIoc | matching_engine/order_ladder.H:149-156 | no resting order carries the immediate-or-cancel flag, so an amend cannot drop its order silently |
| BookTheorems.NeverCrossed | matching_engine/order_ladder.H:130-357 | after any sequence of requests whatever, every bid is strictly below every ask |
| BookTheorems.ApplyCloses | matching_engine/order_ladder.H:145-161 | the ids a request reports closed are exactly those that were resting or entered and do not rest after it |
| OrderAccounts.Conservation | matching_engine/order_ladder.H:132-346 | in every reachable state, remaining plus reported fills of a resting order is what it was last given plus what a re-price forgot |
| OrderAccounts.RemainingPlusFillsIsGiven | matching_engine/order_ladder.H:174-177 | for every resting order not amended after a fill, remaining plus all fills reported is the quantity last given |
| Settlement.TradedOutIsPaidOut | matching_engine/order_ladder.H:319-347 | at every point of every run each order entered rests, was traded out or was withdrawn; the fills of one traded out, as resting or incoming side, add up to what it was last given plus what an amend forgot, and to just that if it was not amended after a fill |
| Settlement.RequestPaysOut | matching_engine/order_ladder.H:132-357 | a fill reported as an order's last is its last lot, for every request |
| OrderAccounts.AmendForgets | matching_engine/order_ladder.H:279-287 | exactly which amends break that law |
| BrokerGaps.AmendsForgetFills | matching_engine/order_ladder.H:279-303 | the two runs in which eight lots are given, four filled and eight rest |
| Replication.TradesReplay | matching_engine/order_ladder.H:318-347 | the trades of a match, replayed on any map that shows the queue, lead to the queue that is left |
| Replication.RequestFollowed | matching_engine/me_broker.H:44-105 | a replica that held the ladder's orders holds them after everything published for a request, exactly unless a partly filled order was amended in place |
| Replication.RunFollowed | matching_engine/me_broker.H:107-172 | the same over every run of one symbol without such an amend, from the whole log |
| BrokerGaps.AmendMisleads | matching_engine/order_ladder.H:279-284 | the run, followed up to there, in which an amend costs replicas the ladder |
| OrderBooks.OrderBook.NewOrder | bots/order_book.cpp:16-40 | orders and levels after a new order message, an id already known keeping its order |
| OrderBooks.OrderBook.DeleteOrder | bots/order_book.cpp:42-93 | orders and levels after a delete, unknown orders being ignored |
| OrderBooks.OrderBook.ModifyOrder | bots/order_book.cpp:95-121 | orders and levels after an amend |
| OrderBooks.OrderBook.OrderTrade | bots/order_book.cpp:123-162 | orders and levels after a trade, too large a trade being refused and an order traded out erased |
| OrderBooks.OrderBook.GetBest | bots/order_book.cpp:164-170 | the best level of a side or zeros; with exact levels, the best live price and all that is live at it |
| OrderBooks.LevelsStayExact | bots/order_book.cpp:16-162 | one proper message whose totals fit keeps every level the sum of the live quantities at its price, none of them zero |
| OrderBooks.StreamExact | bots/order_book.cpp:16-162 | over every stream with fresh ids and positive quantities, levels are exact throughout exactly when the totals fit in 32 bits throughout |
| ReplicaLevels.RequestFits | matching_engine/me_broker.H:44-105 | what a request publishes is such a stream, and its totals fit throughout, trades behind the entry included, exactly when the ladder's do before and after |
| ReplicaLevels.RunLevelsExact | matching_engine/me_broker.H:107-172 | over every clean run the replica has the ladder's orders, and exact levels all along exactly when the ladder's totals fit |
| BrokerTheorems.NeverThrows | matching_engine/me_broker.H:83-92 | no request the handler may send makes the broker throw: not for its symbol, its type, an unknown owner or inside the ladder |
| BrokerTheorems.OutcomeExact | matching_engine/me_broker.H:79-172 | exactly when the broker throws what, and that refusals are passed on as they came |
| BrokerTheorems.AttributionExact | matching_engine/me_broker.H:79-93 | passive fills go to the clients that entered the orders, and will, exactly when a new id collides with no other client's resting order modulo 2^32 |
| BrokerTheorems.SoundStays | matching_engine/me_broker.H:112-169 | ladders stay well formed and share no id, and attribution stays right, over requests without such a collision |
| BrokerTheorems.OwnedStays | matching_engine/me_broker.H:112-169 | colliding ids or not, a request completes and leaves ladders well formed and apart with an owner on record for every resting order |
| BrokerLog.RunAttributed | matching_engine/me_broker.H:79-93 | over every run, attribution stays right throughout exactly when no new id ever collides |
| BrokerGaps.TwinTakesTheFill | matching_engine/me_broker.H:79-98 | the run in which a fill is cleared to a client that did not trade |
| BrokerLog.LogStaysInStep | matching_engine/me_broker.H:107-172 | over all symbols at once, the log keeps up with every ladder on a request exactly unless it amends a partly filled order in place |
| BrokerLog.BrokerStaysInStep | matching_engine/me_broker.H:107-172 | over every clean run nothing throws and replaying the log gives every ladder's exact orders |
| Tape.SummaryIsRight | matching_engine/me_broker.H:96-105 | what a request logs: no trade before the end, then one summary with its symbol and side, the quantity its order filled and the last price, then the trades in order |
| Brokers.MatchingEngineBroker.Callback | matching_engine/me_broker.H:44-100 | what each callback sends back, publishes, holds back and clears, and that only a passive fill of an unknown order throws |
| Brokers.MatchingEngineBroker.FinishedPacket | matching_engine/me_broker.H:102-105 | the held-back trades go out behind a summary of their 32-bit total and last price |
| Brokers.MatchingEngineBroker.Serve | matching_engine/me_broker.H:112-169 | one turn of the loop on real ladders equals the broker's step on abstract books |
| Brokers.MatchingEngineBroker.Process | matching_engine/me_broker.H:107-172 | heartbeat, then the queue served in order up to the first exception; ladders stay valid and disjoint |
| Clearing.RequestClearsInPairs | matching_engine/order_ladder.H:319-340 | the fills of any request come in two opposite legs of one size and price per trade |
| Clearing.ClearedRight | matching_engine/me_broker.H:79-100 | what is cleared is, fill by fill, what the ladder filled, each leg under the client that asked or the one that entered the order |
| Clearing.RunClearsInPairs | matching_engine/me_broker.H:79-100 | over every run of requests everything sent to clearing is a sequence of matched legs |
| Clearing.InterleavingClearsInPairs | matching_engine/me_broker.H:79-100 | and so it is in every interleaving of clients, handler and broker, colliding ids or not |
| ClearingLedgers.ClearingClient.Process | web_data/clearing_client.cpp:94-140 | one datagram: wrong magic throws, a gap is ignored, and every figure stays what the booked fills say it is, converted to 32 bits |
| ClearingLedgers.HoldingsAre | web_data/clearing_client.cpp:118-131 | a client's position is the lots it bought less those it sold by the booked fills that name it, and so on for its totals, profit and volume; a client no fill names has no entry |
| ClearingLedgers.BooksBalance | web_data/clearing_client.cpp:118-131 | once both legs of every match are booked, positions and raw profit of a symbol sum to zero modulo 2^32 and volume is twice what was bought |
| ClearingLedgers.FeedIsBooked | matching_engine/clearing_mcast.cpp:60-76 | a client that hears the whole feed books every fill up to number 2^32 - 1 and none behind it |
| ClearingLedgers.NumbersKeepStep | web_data/clearing_client.cpp:104-140 | whatever else the feed carries, with consecutive numbers from one every fill of it is booked |
| ClearingLedgers.GapIsFatal | web_data/clearing_client.cpp:104-108 | after a missed number nothing later in the feed is booked |
| ClearingLedgers.FeedBalances | web_data/clearing_client.cpp:84-141 | after the whole feed a symbol is in balance exactly unless the numbers ran out between the legs of a match in it and the leg booked is no multiple of 2^32 |
| ClearingLedgers.HouseBalances | web_data/clearing_client.cpp:84-141 | from any interleaving to the ledger: every symbol in balance while the numbers last |
| ClientHandlers.ClientHandler.CancelAllClientOrders | order_entry/oe_client_handler.cpp:439-452 | a delete for every open order of the client, each once, in some order, and its entries forgotten |
| ClientHandlers.ClientHandler.OnSocketClosed | order_entry/oe_client_handler.cpp:149-166 | the session's client is cancelled and loses socket and session; other sockets are ignored |
| ClientHandlers.ClientHandler.OnLogin | order_entry/oe_client_handler.cpp:16-147 | refused, ignored, answered by closing the other socket, or a session opened over whatever the socket had |
| ClientHandlers.ClientHandler.OnNewOrder | order_entry/oe_client_handler.cpp:168-199 | rejects for session, validation and duplicate in that order; otherwise both maps and the queue take the order |
| ClientHandlers.ClientHandler.OnModifyOrder | order_entry/oe_client_handler.cpp:222-246 | rejects for session, unknown order and validation in that order; otherwise the amend is queued under the stored id and symbol |
| ClientHandlers.ClientHandler.Process | order_entry/oe_client_handler.cpp:248-350 | the responses handled one after the other, whichever sends fail |
| Admission.ValidExactly | order_entry/oe_validator.cpp:9-45 | accepted exactly if the symbol is known, quantity a positive whole number of lots up to the limit, price within bounds and on the tick; otherwise which reason |
| Admission.NewOrderAdmitted | order_entry/oe_client_handler.cpp:168-199 | passed on exactly if authentic, tradable and not a duplicate, as just that order for that client, and known under both ids; otherwise just the refusal, for the first fault |
| Admission.DeleteAdmitted | order_entry/oe_client_handler.cpp:201-220 | passed on exactly if authentic and for an open order, under the exchange id and symbol on record |
| Admission.ModifyAdmitted | order_entry/oe_client_handler.cpp:222-246 | likewise, if quantity and price are tradable in the symbol on record |
| Admission.LoginOpens | order_entry/oe_client_handler.cpp:16-147 | which login opens a session on its socket, which costs a client its other one, and which changes nothing |
| Delivery.ResponseDelivered | order_entry/oe_client_handler.cpp:281-372 | a response about a known order is one message, on its client's socket, under its own order id, with the response's quantity, price and flags |
| Delivery.RefusalDelivered | order_entry/oe_client_handler.cpp:262-279 | a refusal reaches the client that asked, with its own order id and the reason |
| Delivery.FailureDisconnects | order_entry/oe_client_handler.cpp:353-372 | a failed send tells nobody anything, ends the session and queues a delete for every open order of the client |
| Delivery.ClientsHearTheLadder | order_entry/oe_client_handler.cpp:248-350 | in every interleaving in which responses find their clients, each is told of an order what the ladder reported, in sequence, up to its end, the rest being on its way |
| FillsHeard.FillsReachTheClient | order_entry/oe_client_handler.cpp:296-324 | and, all responses handled, the fills it was sent are the fills the ladder reported, none lost behind the end |
| Lifecycle.InvStays | order_entry/oe_client_handler.cpp:168-350 | every step of client, broker and handler, in any order, keeps ids accounted for, requests serviceable, maps consistent and ladders sound |
| Lifecycle.EngineNeverThrows | matching_engine/me_broker.H:107-172 | in every reachable state the broker serves the next request without throwing |
| Lifecycle.KnownIsLive | order_entry/oe_client_handler.cpp:248-350 | in every interleaving: queued or resting ids are known; known ids are queued, resting or have their closing message in flight; with both queues empty, known is resting |
| Forwarding.OneEnding | order_entry/oe_client_handler.cpp:252-336 | in every interleaving each exchange order leads to at most one closing message to a client and no ack, fill or close after it |
| Cancellation.TrackedStays | order_entry/oe_client_handler.cpp:301-336 | a step keeps every live order within its client's reach exactly unless the closing of an old order takes away the entry of a newer live one |
| Cancellation.DistinctNeverLoses | order_entry/oe_client_handler.cpp:185-194 | that never happens while client ids are not reused while tracked |
| Cancellation.SessionLossExact | order_entry/oe_client_handler.cpp:121-124 | when a client loses its session everything it has is on its way out exactly if this was no login over that session, or nothing was left to cancel |
| Cancellation.CancelledOnDisconnect | order_entry/oe_client_handler.cpp:149-166 | once a client has lost its session and the broker's queue has drained, nothing of it rests in any ladder, orders still queued when it left included |
| CancellationGaps.OverwrittenSessionStrands | order_entry/oe_client_handler.cpp:121-124 | the run in which a login over a live session leaves an order resting |
| CancellationGaps.ReusedIdStrands | order_entry/oe_client_handler.cpp:326-336 | the run in which a client id used again too soon leaves an order resting |
| SnapshotWriters.SnapshotWriter.Take | market_data/snapshot_writer.cpp:61-207 | one message keeps the bid and ask vectors of every covered symbol an exact listing of its live orders, and the index able to find them |
| SnapshotWriters.SnapshotWriter.Process | market_data/snapshot_writer.cpp:61-247 | after the queue, the vectors list what the log means; a snapshot sorts them and sends each covered symbol once, announced with its counts and last number |
| SnapshotWriters.SnapshotWriter.Write | market_data/snapshot_writer.cpp:249-279 | messages go out in order in packets of at most 1460 bytes |
| SnapshotWriters.ListsPermuted | market_data/snapshot_writer.cpp:213-224 | sorting loses, adds and duplicates nothing |
| SnapshotAgreement.WriterIsReplica | market_data/snapshot_writer.cpp:61-207 | after any log with fresh ids the writer's vectors, read as a map, are the client book's orders, no id twice across the two |
| Recovery.RunContiguous | bots/md_client.cpp:193-204 | after a snapshot the numbers taken are one contiguous run without repetition, whatever the buffer and the packets hold and however often they are offered |
| Recovery.PacketAligned | bots/md_client.cpp:255-397 | a packet without a gap keeps the covered books right and takes the client no further than its end |
| Recovery.PacketTakenWhole | bots/md_client.cpp:313-385 | a packet without a gap is taken to its end exactly unless a message before its last finds no book, by the books and index at its start and the messages in front of it |
| Recovery.CoveredFeedNeverStops | bots/md_client.cpp:313-385 | a packet that refers to live orders of covered symbols is always taken to its end |
| Recovery.DrainAligned | bots/md_client.cpp:193-204 | the buffered tail is taken to its end even past messages that cannot be placed |
| Recovery.LoadExact | bots/md_client.cpp:182-194 | snapshots loaded are the market at one point exactly when each symbol was no different at its own |
| LateJoin.CountersExact | bots/md_client.cpp:155-175 | counters are what was announced less what came, the buffer is what came, and a symbol is flagged exactly when both counts were met at some moment |
| LateJoin.CompletesWhenAllArrived | bots/md_client.cpp:132-175 | a snapshot arriving in the order sent is flagged complete exactly when all its orders have arrived, or an earlier one had been |
| LateJoin.DeliveredWhenSettled | bots/md_client.cpp:98-98 | what was heard of a symbol is its whole snapshot exactly when both its counters stand at zero |
| LateJoin.StartExact | bots/md_client.cpp:141-194 | loading whole snapshots is right at the cursor exactly when no symbol changed between its number and the cursor |
| LateJoin.FlaggedIsNewer | bots/md_client.cpp:135-141 | with old announcements refused, a symbol flagged means the cursor lies beyond the first live message buffered |
| LateJoin.LateBufferIsLost | bots/md_client.cpp:193-204 | what the refusal prevents: of a buffer that starts beyond the next number nothing is ever taken |
| LateJoin.OneNumberUnmoved | bots/md_client.cpp:141-141 | when all announcements heard carry one number, that is the cursor and nothing moved |
| LateJoin.LateJoinExact | bots/md_client.cpp:86-218 | then, with old announcements refused, the books after the buffered tail are those of the whole log |
| RecoveryLevels.LateJoinLevels | bots/md_client.cpp:182-204 | and the aggregated levels are exact however much of the tail is buffered, exactly when the totals fit from the cursor on |
| RecoveryGaps.WriterDelivers | market_data/snapshot_writer.cpp:226-245 | the snapshot a writer sends, heard whole, delivers its symbol as of the number it carries |
| RecoveryGaps.RoundDelivers | market_data/snapshot_writer.cpp:226-245 | and one round of the writer, heard whole, delivers every symbol it covers |
| RecoveryGaps.MixedNumbersGoWrong | bots/md_client.cpp:141-141 | an input with two announcement numbers that leaves a deleted order in the book |
| RecoveryGaps.FlagOutlivesSnapshot | bots/md_client.cpp:141-154 | a run in which the wait ends with an announced order missing |
| RecoveryGaps.UncoveredTradeStalls | bots/md_client.cpp:367-377 | a trade in a symbol without a book stops the client for good |
| MDClients.MDClient.ProcessMessage | bots/md_client.cpp:255-397 | one packet on real order books: gaps and unplaced messages end it, stale ones are skipped |
| MDClients.MDClient.WaitForSnapshot | bots/md_client.cpp:86-204 | of every arrival it takes all snapshot messages up to the first old announcement; it ends with the first arrival after which all symbols are flagged, the cursor beyond the first live message, and leaves the client joined from what it took |
| MDClients.WholeSnapshotsEndTheWait | bots/md_client.cpp:98-175 | once every symbol's snapshot has been sent whole and no announcement was old, the wait is over |
| MDClients.MDClient.WaitEndsRight | bots/md_client.cpp:86-204 | from that result to the books of the whole log, with no assumption on how far back the buffer reaches |
| Codec.DecodeEncode | matching_engine/md_mcast.H:40-54 | every message laid out little-endian behind its header is read back with its length, whatever follows |
| WireLayout.HeaderLayout | market_data/md_protocol.H:29-36 | every message's magic, length, number, time and type, byte by byte, and its size by kind |
| WireLayout.BodyLayout | market_data/md_protocol.H:38-82 | the fields of each kind of message, one behind the other from byte 23 on, little-endian |
| Codec.ParseEncode | bots/md_client.cpp:255-397 | a packet walked by header length gives back its messages in order |
| WireLayout.SnapshotSizes | market_data/md_protocol.H:84-92 | the writer's packet sizes count what its messages take on the wire |
| Publishers.MarketDataPublisher.WriteMsg | matching_engine/md_mcast.H:40-54 | the message is appended under the next number, the buffer sent first when it would not fit |
| Publishers.MarketDataPublisher.PublishQueuedTrades | matching_engine/md_mcast.cpp:108-136 | a summary with the total and last price of the trades that follow it, then the trades |
| Publishers.MarketDataPublisher.ReadersSeeEverything | matching_engine/md_mcast.cpp:155-167 | packets fit 1460 bytes, and reading all of them gives every published message in order, numbered from zero without a gap |
| StreamParsers.StreamParser.Parse | order_entry/oe_stream_parser.H:35-127 | one delivery for a socket: window, reassembly, handler calls, leftover bytes, faults, and no effect on other sockets |
| StreamParsers.StreamIsHandled | order_entry/oe_stream_parser.H:86-126 | a stream of whole messages, however cut up: one call for each, in order, of the kind its third byte says, with exactly its bytes, nothing left over |
| StreamParsers.StreamEnds | order_entry/oe_stream_parser.H:58-120 | and what behind them makes the parser wait or refuse, by version, claimed length, bytes there and type |
| StreamParsers.WindowTrips | order_entry/oe_stream_parser.H:37-52 | with a clock that does not run backwards, a delivery is refused exactly when more than a thousand calls were made in the second before |
| StreamParsers.ChunkingIsInvisible | order_entry/oe_stream_parser.H:56-126 | any split of a rightly sized stream gives the same calls, state and leftover bytes as one delivery |
| StreamParsers.ChunkingExact | order_entry/oe_stream_parser.H:71-124 | and rightly sized is exactly what that takes |
| StreamParsers.LoopEnds | order_entry/oe_stream_parser.H:58-125 | the loop ends waiting or at a fault, unless it reaches a message that claims no bytes |
| StreamParsers.UnfloodedIsUntimed | order_entry/oe_stream_parser.H:37-52 | as long as the window has not tripped, the clock makes no difference |
| EndToEnd.StepInStep | matching_engine/me_broker.H:107-172 | in every reachable state of handler and broker, the log keeps up with all ladders on the next step exactly unless it amends a partly filled order in place |
| EndToEnd.LogKeepsUp | matching_engine/me_broker.H:107-172 | in every clean interleaving the log replays to every ladder's orders |
| EndToEnd.LateJoinerHasTheLadder | bots/md_client.cpp:86-204 | from any clean interleaving to a late joiner: its books are the ladders' orders, its levels exact if the totals always fit |

## Left out

- Sockets, multicast, epoll, logging and pcap: sends and receives are appends to and reads from logs and queues; a send may fail. A socket's raw bytes are modelled only in the stream parser and the publisher.
- Clocks: heartbeats, snapshot times and send timeouts are decisions of the environment; exchange ids come from the clock and are taken to be fresh. `Lifecycle` has no heartbeat step; `EndToEnd` adds heartbeats to the log.
- Subscriber callbacks: the ladder records them and the broker dispatches them when the operation has ended, since they do not touch the ladder. Where a callback throws, the books are those of the finished operation.
- Order nodes carry their data as one record, `timestamp` (always zero) is dropped, and a pool block is a loop of nodes.
- Prices are integers; only the codec, which needs them in 32 bits, asks for that. Sides have two values, as everywhere but in the validator, which does not look.
- Credentials, random session ids, outgoing sequence numbers per session and login responses: a login has its verdict as a parameter.
- Validator configuration with a zero tick or lot, by which the program would divide.
- Broker class and publisher class are joined by their specifications: the broker's log is the list of messages the publisher is proved to deliver.
- The recursive restart after a drop (bots/md_client.cpp:271-283): recovery is modelled once, from a clean state, with recovery on drops off.
- Market data with a wrong magic number, an unknown type or a short datagram in the client's live feed; `Codec.Decode` stops there.
- The client's `PriceLevel` getters for unknown symbols, trade summary listeners, and the maps of all but the fields used.
- etf_service, bots and their strategies, the web application, viewers, pcap tools and scripts.
- Recovery.PacketAligned: stated for logs of fewer than 2^32 messages, before numbers wrap.
- Fields nobody reads: the sequence number, symbol and side in responses to the handler, and the flags in snapshot orders, are carried without a claim.
