# A verified model of the CLOB matching engine

The engine keeps one central limit order book per market and processes one command at a time: limit,
market and stop orders, cancels, halts, an opening call auction, a circuit breaker and a position ledger.
Everything a subscriber learns comes from the stream of events it emits.

The project is built in four layers.

- **Values.** A book is two sequences of price levels, best first, each a queue of orders, oldest first
  (`BookSpec`). Matching is a process on such a value that always acts on the head of the best opposite level
  (`MatchSpec`). Stops, auctions, positions, the price window and decimals have their own value modules
  (`StopSpec`, `Auctions`, `AuctionSweep`, `Positions`, `Circuit`, `Decimals`), and the whole command processor is
  a function from a market, a command and a time to a market with a longer log (`EngineSpec`).
- **Theorems about the values.** Matching refines an unordered pile served by price and time (`MatchPriority`);
  what it keeps (`MatchTheorems`, `MatchQuantities`, `PlaceEffects`); who rests, is canceled or counts as filled, and what
  a resting order shows (`PlacementResults`, `Slices`, `EngineSlices`); scans of the book, made before an order is
  matched, that decide how matching ends (`MatchScans`, `FeedScan`); what every command of every run keeps
  (`EngineInvariants` to `EngineTheorems`, `EngineReserves`, `EngineFeed`, `EngineCrash`, `ReduceOnly`); every order a run
  lets in, triggered stops in mid-cascade included, and the exact conditions read off them (`EngineTraces`, `EngineExact`);
  the auction from its first order to the continuous trading after it (`AuctionTheorems` to `AuctionSessions`); concrete
  inputs at which the code surprises (`EngineExamples`, and beside the theorems they bound).
- **Requirements.** What users of the market rely on, stated in prices, quantities, times and ids and in none of the
  functions that compute it: which orders are let in (`Admission`) and that they rest, wait or trade as submitted
  (`Submissions`), which stops fire and as what they come in (`StopFiring`), when the market halts, opens and resumes
  (`Halts`), who leaves it (`Removals`), what the log says of trades and endings (`TradeReports`), in which order and at
  which price an auction serves (`AuctionPlainly`) and what becomes of the rest (`AuctionLeftovers`), what a decimal text
  means (`DecimalReads`).
- **Classes.** The mutable engine itself: linked FIFO levels, slot pools, sorted trees, an id index and the book
  over them (`PriceLevels`, `Pool`, `BookParts`, `OrderBooks`), the stop book built in the same way (`StopLevels`, `StopBooks`,
  over the values of `StopFiling`), the auction book, the rolling window and the breaker, and the command processor
  (`Processors`). Each method's contract equates what it
  leaves with the value-level function of what it found, so the theorems above are theorems about the classes.

Prices and quantities are integers at one precision per kind. `now`, the pre-order hook's answer, the order in which
a map is ranged over and the clearing price found enter as arguments; the methods' contracts pin the last two down.

`dafny verify dfyconfig.toml` checks the project.

## Model

Paths are relative to the repository.

| member | source | states |
|---|---|---|
| PriceLevels.PriceLevel.Append | book/level.go:20-36 | the node joins the tail of a well-linked list; its total, display and count stay the sums over the list, and every other node keeps its order and place |
| PriceLevels.PriceLevel.Unlink | book/level.go:39-56 | exactly the given node leaves; links, head, tail, back-pointer and running totals stay right for the rest |
| PriceLevels.PriceLevel.DecrementQty | book/level.go:60-69 | one order loses `q` of its slice and of its display, and the level's totals follow, position by position |
| PriceLevels.PriceLevel.ReplenishIceberg | book/level.go:73-114 | the exhausted head comes back at the tail under a fresh number, showing all it works: a full lot, or the last of its reserve, which loses just that; the level's totals are the sums again |
| Pool.Pool.Acquire | pool/pool.go:41-51 | fails exactly when every slot is in use; otherwise hands out a slot that was not |
| Pool.Pool.Release | pool/pool.go:55-58 | the slot given back, and no other, is free again |
| BookParts.PriceLevelTree.Get | book/tree.go:64-66 | finds the level at a price exactly when the sorted tree has one |
| BookParts.PriceLevelTree.Insert | book/tree.go:52-55 | the level goes where the sort order wants it; the tree stays strictly sorted |
| BookParts.PriceLevelTree.Delete | book/tree.go:58-61 | exactly that level leaves the tree |
| OrderBooks.OrderBook.GetOrCreate | book/tree.go:71-95 | the level at the price, created from the pool if missing; fails exactly when it is missing and the pool is exhausted |
| OrderBooks.OrderBook.MatchLoop | book/matching.go:57-147 | the nested loops over linked levels, index and pools leave taker, book, fills and cancels exactly as the value-level run does, with the whole representation invariant |
| OrderBooks.OrderBook.ApplySTP | book/matching.go:250-284 | the five self-trade modes, each with its own effect on taker and maker, as the value-level step |
| OrderBooks.OrderBook.CancelMakerNode | book/matching.go:290-303 | the maker leaves level, index and pool together and is reported as it was |
| OrderBooks.OrderBook.CleanupLevelIfEmpty | book/matching.go:307-319 | an emptied level leaves the tree and its slot is free; a level with orders stays |
| OrderBooks.OrderBook.CanFillFull | book/matching.go:202-221 | the early-stopping scan answers whether the totals of all crossing levels reach the quantity, and changes nothing |
| OrderBooks.OrderBook.RestNode | book/matching.go:323-343 | the node rests at the tail of its own price, indexed; fails exactly when its level is missing and no level slot is free |
| OrderBooks.OrderBook.MatchOrder | book/matching.go:37-187 | the whole placement on the heap - dry run, matching, every exit - equals the value-level placement; lists, sums, trees, index and pools stay consistent and the node is either resting or released |
| OrderBooks.OrderBook.Cancel | book/book.go:93-120 | not found, wrong owner, or exactly that order off list, index and empty level, its node handed to the caller |
| OrderBooks.OrderBook.ExpireGTD | book/book.go:164-184 | in whatever order the index is visited, exactly the expired orders are taken off, each once, and handed over |
| OrderBooks.OrderBook.LevelInfoAt | book/book.go:204-216 | the running totals of a level are its public state, and there is none exactly when no order rests at the price |
| OrderBooks.OrderBook.OrderRestInfo | book/book.go:190-200 | what the index says of an id is what a search of the queues finds |
| OrderBooks.OrderBook.CrossesBest | book/book.go:129-142 | whether a price would trade at once |
| OrderBooks.OrderBook.BBO | book/book.go:145-155 | best bid and best ask of the sorted sides |
| MatchSpec.StepDecreases | book/matching.go:57-147 | every step of a live match lowers the taker's remainder or, at an equal remainder, the number of opposite resting orders |
| MatchPriority.RunRefinesFlat | book/matching.go:57-147 | level-by-level matching equals serving an unordered pile by best price, then smallest sequence number, in all five self-trade modes: same trades, cancels, taker and remaining orders. The reference spells out acceptable prices, refilling, decrementing and whose mode rules again and shares none of them |
| MatchTheorems.PlaceWF | book/matching.go:66-110 | placing the newest order keeps every level sorted by price and its sequence numbers strictly increasing, refilled icebergs included |
| MatchTheorems.RestedCrossesNothing | book/matching.go:149-187 | from any sound book, even a crossed one, an order left resting crosses no opposite level |
| MatchTheorems.PlaceUncrossed | book/matching.go:37-187 | a placement keeps best bid below best ask |
| MatchTheorems.PlaceFillPrices | book/matching.go:57-147 | every fill respects the taker's limit, and fill prices never improve along the list |
| MatchTheorems.GuardedOrderRests | book/matching.go:143-187 | for an order past the capacity guard the pool-exhausted branch is out of reach: whoever crosses with quantity left has released a level |
| MatchQuantities.RunConserves | book/matching.go:57-147 | without clashes, what the fills total is what the taker lost, and what each maker lost - reserve included - is what the fills took from it |
| MatchScans.RunFillsExactly | book/matching.go:57-147 | in every mode, a taker is filled in full by trades alone exactly when a scan of the opposite side, made before, reaches its quantity |
| MatchScans.FillOrKillExactly | book/matching.go:39-44 | in every mode, fill-or-kill is all or nothing exactly when the dry run refuses or that scan reaches the quantity |
| PlacementResults.RejectedExactly | book/matching.go:39-44 | an order is rejected with nothing touched exactly when it is fill-or-kill and the working slices of all orders at prices it accepts total less than its quantity |
| PlacementResults.TakersNeverRest | book/matching.go:159-171 | immediate-or-cancel and market orders leave their own side as it was, from any book and in any mode |
| PlacementResults.TakersClosed | book/matching.go:149-171 | what matching left of them is canceled, as partly filled or not; nothing left is a full fill |
| PlacementResults.LeftExactly | book/matching.go:57-147 | what is left is the quantity less the fills, in every mode, unless an own order is decremented |
| PlacementResults.RestsExactly | book/matching.go:149-187 | an order ends up in the book exactly when it is a limit order that is not immediate-or-cancel, was not refused as fill-or-kill nor ended by self-trade prevention, has quantity left, and finds its level or a free one |
| PlacementResults.FilledByTradesExactly | book/matching.go:154-157 | an order reported filled was filled by trades alone exactly when the scan made before reaches its quantity |
| PlacementResults.DecrementedCountsAsFilled | book/matching.go:267-283 | an input where it was not: an immediate order that only meets its user's own order counts as filled without a trade |
| Slices.ExhaustedSliceRefilled | book/level.go:73-114 | any trade that uses up a slice with a reserve leaves the order last in its queue, showing all it works, at most one lot, taken out of the reserve, and less than a lot only when that was all |
| Slices.RunFrom | book/matching.go:57-147 | after matching in any mode every order of the other side is one that rested there, the same but for its quantities and number, with filled, slice and reserve adding up to its quantity |
| Slices.RestedShows | book/matching.go:84-86 | an order that rests after matching shows exactly what it works if and only if matching took nothing from it |
| Slices.PartlyFilledShowsTooMuch | book/matching.go:84-86 | an input: a bid of 10 that meets 4 rests with 6 and shows 10 |
| EngineSlices.NothingShowsMoreThanAccepted | book/level.go:60-114 | after any commands at all, auctions included, every resting order is a limit order whose accepted quantity is what it has filled, works and keeps back, and which never shows more than the display it was accepted with |
| MatchScans.FilledExactly | book/matching.go:149-157 | without clashes an order is reported filled exactly when what rests at the prices it crosses, reserves included, suffices |
| MatchQuantities.FillOrKill | book/matching.go:39-44 | without clashes: filled by fills summing to the quantity if the crossing totals reach it, else rejected with the book untouched |
| MatchPriority.OwnMakersDefeatFillOrKill | book/matching.go:202-221 | an input for which fill-or-kill fails: the dry run counts the user's own ask, which is then canceled, and the order rests unfilled |
| FeedScan.RunFeed | book/matching.go:108-136 | after matching in any mode, folding the levels announced with the fills gives the opposite side exactly when the scan finds no level changed by self-trade prevention and not traded at since |
| StopFiring.TriggeredExactly | stopbook/stopbook.go:145-197 | a trade sets off exactly the sells with a trigger at its price or above and the buys with one there or below; every sell left is below the price and every buy above |
| StopFiring.FiringOrder | stopbook/stopbook.go:145-197 | sells before buys, sells by falling and buys by rising trigger, the older first at one trigger |
| StopFiring.NoStopLeftBehind | engine/processor.go:701-741 | once an order is matched and followed up, cascades and all, no waiting stop is due at the price of its last trade |
| StopFiring.TriggeredStopEnters | engine/processor.go:747-819 | a triggered stop is announced with the price that set it off and comes in as an order of its side, user and quantity; a stop limit trades at its limit or better and rests at it, a stop market never rests |
| StopFiring.TriggerAnswered | engine/processor.go:715-779 | a triggered stop is announced first; then its acceptance says its type, price (none for a stop market), quantity, time in force and number, or there is no node and it is refused with nothing else changed |
| StopFiring.AnnouncedInOrder | engine/processor.go:715-725 | the stops a trade sets off are announced in the order in which they fire, whatever their cascades announce in between |
| StopFiring.NoLevelExactly | stopbook/stopbook.go:90-101 | a stop finds no level exactly when its side has none at its trigger and the different triggers of both sides fill the pool |
| StopSpec.AllFiredSum | stopbook/stopbook.go:145-197 | firing moves stops from the book to the triggered list: none is lost and none doubled |
| StopLevels.StopQueue.Append | stopbook/stoplevel.go:15-29 | the stop joins the tail of a well-linked, counted queue, and its back-pointer says so |
| StopLevels.StopQueue.Unlink | stopbook/stoplevel.go:32-47 | exactly the given node leaves the queue, reached by its links; the others keep their places and links |
| StopBooks.StopBook.AcquireNode | stopbook/stopbook.go:247-250 | a node slot is handed out, to be released once, and no waiting stop is touched; it fails exactly when every slot waits or is held |
| StopBooks.StopBook.ReleaseNode | stopbook/stopbook.go:252-255 | the slot of a node in hand, and no other, is free again |
| StopBooks.StopBook.GetOrCreate | stopbook/stopbook.go:90-101 | the level at a trigger, put in firing order from a free slot if missing; none exactly when it is missing and the level pool is exhausted |
| StopBooks.StopBook.AddStop | stopbook/stopbook.go:80-103 | the node, linked and indexed, joins its side in firing order, first come first served at one trigger; it panics exactly when its trigger is new and no level slot is free |
| StopBooks.StopBook.CancelStop | stopbook/stopbook.go:108-134 | not found, wrong owner, or exactly that node off queue, index and emptied level, the level's slot freed and the node handed to the caller |
| StopBooks.StopBook.Drain | stopbook/stopbook.go:161-172 | the walk along the best level, which leaves links and back-pointers of the released nodes dangling, still frees exactly its nodes' slots and its own, each once, and leaves queues, index and pools of the rest consistent |
| StopBooks.StopBook.CheckTriggers | stopbook/stopbook.go:145-197 | below the depth limit the triggered stops are exactly the sells with a trigger at the price or above and the buys with one there or below, in firing order, and what is left is the rest |
| StopBooks.StopBook.ExpireGTD | stopbook/stopbook.go:218-242 | in whatever order the index is visited, exactly the expired stops are unlinked, each once, and their nodes handed over |
| StopFiling.PutIsAdd | stopbook/stopbook.go:80-103 | filing a stop by trigger level is inserting it in firing order |
| Circuit.RollingWindow.Add | circuit/window.go:35-51 | the ring buffer holds the retained samples in order: the new one last, stale and overflowing ones gone |
| Circuit.WindowHolds | circuit/window.go:35-51 | with non-decreasing times the window is exactly those of the last `maxSamples` additions that are not too old |
| Circuit.Threshold | circuit/breaker.go:33-59 | the fixed-point test trips exactly when the move times 10000 reaches one step above the limit times the oldest price |
| Circuit.HaltsExactly | circuit/breaker.go:33-59 | over any price history the breaker halts exactly when outside its cooldown the move against the oldest kept sample exceeds the limit |
| Circuit.CircuitBreaker.Check | circuit/breaker.go:33-59 | the sample is recorded, and the answer is that decision |
| Halts.BreakerHalts | engine/processor.go:727-740 | after a trade the market is halted by the breaker, says so once, remembers what it was and starts a new window and cooldown, exactly when outside the cooldown two samples are kept and the price differs from the oldest by more than the limit; otherwise only the sample is recorded |
| Halts.TradeHaltsExactly | engine/processor.go:701-741 | an order that trades and sets off no stop halts an open market exactly then |
| Halts.StopsThenBreaker | engine/processor.go:701-741 | with stops set off, the market is judged once they are through |
| Halts.FirstTradeNeverHalts | circuit/breaker.go:33-59 | the first trade of a window never halts |
| Halts.DepthLimitHalts | engine/processor.go:701-714 | at the depth limit a market that can be halted is, and says why; no stop is touched |
| Halts.StateMoves | statemachine/states.go:36-54 | a table of all moves: what halting, resuming, opening and clearing an auction do in each state; trading only ever halts |
| Halts.MovesAnnounced | engine/processor.go:633-661 | each such move is announced once as what it is, and nothing else is |
| Halts.HaltThenResume | engine/processor.go:633-661 | halting an open market or an auction by hand and resuming it changes nothing but the two announcements |
| Halts.ClearingAnnounced | engine/processor.go:1089-1111 | clearing opens the market and ends with the price and volume found |
| Auctions.AuctionBook.AddOrder | auction/auctionbook.go:41-59 | the order joins its side, which stays in price-time priority; nothing else moves |
| Auctions.ComputeClearingPrice | auction/equilibrium.go:10-95 | the nested loops find the order price that beats all others by volume, imbalance, distance to the reference and price, or that none executes |
| AuctionPlainly.ChosenPlainly | auction/equilibrium.go:60-94 | among the order prices the chosen one executes most, then leaves least over, then is nearest to the reference, then is lowest |
| AuctionPlainly.StandInOrder | auction/auctionbook.go:41-59 | collected orders stand by price, then number |
| AuctionPlainly.AuctionFillsTold | auction/sweep.go:44-74 | every fill names an ask as maker and a bid as taker, and what each has left of its quantity after all executed of it so far |
| AuctionPlainly.CollectedAsSubmitted | engine/processor.go:245-275 | in the auction a limit order that breaks no rule is announced and collected as submitted, and nothing else changes |
| AuctionPlainly.ServedInOrder | auction/sweep.go:12-74 | those that accept the price take part, and one has something executed only when everybody ahead of it by price, then number, is used up |
| AuctionTheorems.MaximalVolume | auction/equilibrium.go:15-94 | no price at all, quoted or not, executes more than the chosen one |
| AuctionTheorems.FoundExactly | auction/equilibrium.go:15-94 | a price is found exactly when some bid price is at least some ask price |
| AuctionTheorems.ClearingUnique | auction/equilibrium.go:15-94 | the result is unique |
| AuctionTheorems.ClearingReordered | auction/equilibrium.go:15-94 | the result does not depend on the order in which orders came or prices are visited |
| AuctionTheorems.LeastImbalance | auction/equilibrium.go:60-94 | the choice is least imbalanced among all prices of its volume exactly when demand and supply meet at some order price or at no price |
| AuctionTheorems.ImbalanceBetweenOrderPrices | auction/equilibrium.go:15-94 | an input where they meet only between order prices, and the choice leaves 5 over while an unquoted price leaves nothing |
| AuctionTheorems.NearestExactly | auction/equilibrium.go:60-94 | the choice is nearest to the reference among all prices of its volume and imbalance, quoted or not, exactly when each candidate - the reference, an order price or a tick beside one - that ties the best order prices has one of them at least as near |
| AuctionTheorems.ReferenceBetweenOrderPrices | auction/equilibrium.go:60-94 | an input where none is: the choice is 5 away from the reference, while the reference itself executes as much and leaves as little over |
| AuctionSweep.Sweep | auction/sweep.go:12-120 | the two-index loop over mutable remainders pairs the participants from the front and splits what is left into carried and canceled |
| AuctionResults.AnnouncedVolume | auction/sweep.go:44-74 | the sweep executes exactly the announced quantity |
| AuctionResults.SweepConserves | auction/sweep.go:75-117 | each order's quantity is its fills plus its residual, carried or canceled |
| AuctionResults.WithinLimits | auction/sweep.go:12-74 | every fill is at the clearing price and within both parties' limits |
| AuctionResults.PriorityKept | auction/sweep.go:44-74 | an order has something executed only if every order of higher priority on its side is used up |
| AuctionResults.NoCrossingLeft | auction/sweep.go:75-117 | after clearing at the computed price no residual bid reaches a residual ask |
| AuctionHandover.CarriedOnce | auction/sweep.go:75-117 | no order is carried over twice, and none that did not take part |
| AuctionHandover.CarriedInTime | engine/processor.go:1060-1087 | what is carried over is in order of its old sequence numbers at each price |
| AuctionPhase.PhaseKept | engine/processor.go:122-137 | until clearing, a command keeps what clearing relies on - collected orders positive, in priority, numbered apart, and sharing no id with book or stop book - exactly unless it is a resume when the remembered state is not the auction's, or a halted stop that takes a collected id |
| AuctionPhase.HaltedStopExactly | engine/processor.go:447-559 | a stop accepted while halted breaks this exactly when its id is that of a collected order, which is not looked up |
| AuctionPhase.PhaseClearable | engine/processor.go:1032-1112 | throughout that phase the auction can be cleared |
| AuctionPhase.ResumeStrandsAuction | engine/processor.go:646-661 | before the open, in the auction and halted alike, a resume opens the market at once, so that clearing does nothing and the collected orders are never served, exactly when the remembered state is not the auction's: none was halted, or it was halted twice |
| AuctionSessions.PhaseRuns | engine/processor.go:122-137 | a run up to clearing stays in the phase throughout exactly when none of its inputs leaves it in that way |
| AuctionSessions.PhaseRunsClear | engine/processor.go:1032-1112 | after any such run from the empty market, clearing over an empty book leaves a good, open and uncrossed market |
| AuctionCarry.ResidualSeparate | engine/processor.go:1045-1087 | nothing handed on by the sweep crosses anything else handed on, whether or not a price was found |
| AuctionCarry.ClearingIntoEmptyBook | engine/processor.go:1032-1112 | clearing into an empty continuous book: the orders carried over produce no fill and no self-trade cancel |
| AuctionOpening.ClearedGood | engine/processor.go:1032-1112 | ... and leave a market that is open, uncrossed, well-formed and in time priority, with ids unique and pools within capacity |
| AuctionLeftovers.LeftoversHandedOn | engine/processor.go:1046-1103 | what an auction leaves over is part of a collected order: good till canceled it rests as what is left of it, all of it if the pools have room, and nothing else rests; anything else is canceled with what is left of it |
| AuctionSessions.SessionCleared | engine/processor.go:1032-1112 | ... in which the depth feed reproduces the book, positions balance and every auction order is filled, canceled, refused or resting |
| AuctionSessions.DayAccountedFor | engine/processor.go:77-120 | from the empty market through an opening auction, halts and resumes in it included, and any continuous trading after it: ids, pools and positions stay right whatever is submitted; without self-trade modes every order is accounted for as long as no reserve is lost and the feed is right as long as nothing resting expires |
| Positions.PositionTracker.ApplyOne | engine/positions.go:31-48 | both parties' positions move by the fill, in opposite directions, and nobody else's |
| Positions.FillsKeepNet | engine/positions.go:31-48 | any list of fills leaves the sum of all positions as it was |
| ReduceOnly.ReducesOnEntry | engine/positions.go:56-64 | a reduce-only order that passes its check, matched on entry against anybody at any prices in any self-trade mode, never takes its user's position across zero or further from it |
| Submissions.MarketReducesOnEntry | engine/processor.go:355-443 | a reduce-only market order likewise |
| Decimals.ParseDecimal | types/decimal.go:47-101 | the loop that pads and truncates fraction digits parses as the specification does, errors included |
| DecimalReads.ReadsAsWritten | types/decimal.go:47-101 | digits, a point and up to as many further digits as the precision has mean whole units and tenths, hundredths and so on, however few are written; a minus negates |
| DecimalReads.TooManyPlaces | types/decimal.go:69-71 | more digits after the point are refused |
| Decimals.DecimalVar.UnmarshalJSON | types/decimal.go:395-414 | the receiver takes the precision of the text's digits if it had none, and is left alone when parsing fails |
| Decimals.RoundTrip | types/decimal.go:357-382 | parsing what was printed gives the decimal back exactly when its value is not the least 64-bit integer, or its precision is 2 or 12 |
| Decimals.JsonRoundTrip | types/decimal.go:395-414 | reading a printed decimal into a fresh one recovers value and precision |
| Decimals.MulQtyExact | types/decimal.go:224-242 | the notional is the true product truncated toward zero exactly when that fits 64 bits |
| Processors.NewMarket | engine/engine.go:144-204 | book, stop book, auction book and breaker put together are a good state: an empty market before the open |
| Processors.CommandProcessor.Dispatch | engine/processor.go:122-137 | every queued command, in every good state, changes the whole market and its log exactly as the value-level processor says, and leaves a good state; a crashed processor does nothing |
| Admission.LimitChecked | engine/processor.go:141-247 | a limit order is refused for the first rule it breaks in a list of rules in plain terms - whole steps of tick and lot, bounds, expiry, ids in use, features, position, crossing, room - and passes when it breaks none |
| Admission.LimitAnswered | engine/processor.go:141-351 | refused it changes nothing but the log; else it is announced under a new number with what it was submitted with |
| Admission.PostOnlyNeverTakes | engine/processor.go:202-208 | a post-only order processed outside an auction leaves the other side as it was and trades nothing |
| Admission.PostOnlyRefusedExactly | engine/processor.go:202-208 | it is refused for crossing exactly when it breaks no earlier rule and some order of the other side is at a price it reaches |
| Submissions.RestsAsSubmitted | engine/processor.go:265-351 | an accepted order that is not matched rests as submitted, at the tail of its price: display, reserve, expiry, mode and number |
| Admission.MarketChecked | engine/processor.go:355-411 | the rules of market orders |
| Submissions.MarketAnswered | engine/processor.go:355-443 | what refusal and acceptance of a market order do |
| Admission.StopChecked | engine/processor.go:447-517 | the rules of stops |
| Submissions.StopAnswered | engine/processor.go:447-559 | a stop is refused, takes the processor down, or waits as submitted with every other stop as before |
| Processors.CommandProcessor.ProcessLimitOrder | engine/processor.go:141-351 | all checks in order, then collecting, resting or matching with its cascade |
| Processors.CommandProcessor.ProcessMarketOrder | engine/processor.go:355-443 | the market-order path likewise |
| Processors.CommandProcessor.ProcessStopOrder | engine/processor.go:447-559 | the stop is refused, enlisted, or takes the processor down |
| Processors.CommandProcessor.ProcessCancelOrder | engine/processor.go:563-629 | resting order, waiting stop, or refusal, with the events of each |
| Removals.CancelExactly | engine/processor.go:563-629 | a cancel takes off that order or stop if it is its user's, and no other, and says how much, an iceberg's reserve included; anybody else's, or of an unknown id, is refused and changes nothing |
| Processors.CommandProcessor.CheckStopsAndBreaker | engine/processor.go:701-741 | the recursion terminates below the depth limit, each stop cascading before the next, then the breaker |
| Processors.CommandProcessor.ProcessTriggered | engine/processor.go:747-819 | one triggered stop announced, placed and followed up one level deeper |
| Processors.CommandProcessor.EmitFillEvents | engine/processor.go:841-923 | two fills, a trade and a depth update per fill, in order; the ledger follows |
| TradeReports.TradesReported | engine/processor.go:841-923 | fill by fill the log names the maker on the other side and the entering order as taker, both with the trade's price and quantity, and the taker's remainder counts down from its slice unless an own order is decremented |
| TradeReports.FillsTold | book/matching.go:57-147 | each fill uses up the maker's slice or the taker, only the last the taker, and the last maker is first in the book with just what it is said to have left |
| TradeReports.NoSelfTrades | book/matching.go:225-246 | an order with a self-trade mode, or any order in a market that has one, never trades with its own user |
| TradeReports.TakersModeWins | book/matching.go:236-246 | whatever modes makers and market have, a taker's cancel-maker never ends it, its cancel-taker cancels no maker, its cancel-both at most one and then itself |
| TradeReports.SelfTradesReported | engine/processor.go:927-940 | every maker self-trade prevention removes is the entering user's own, on the other side, and is canceled with what it had left and had filled |
| TradeReports.DepthIsWhatRests | book/book.go:204-216 | the public state of a price is the sum of slices, of shown quantities and the number of the orders resting there, and there is none exactly when none rests |
| Processors.CommandProcessor.EmitDisposition | engine/processor.go:942-1017 | the event that rests or closes the order, with the level as the book now has it |
| TradeReports.ClosingReported | engine/processor.go:942-1017 | the last words on an entering order: rejected; canceled with what was filled and what was not, and why; or resting with what it still has, reserve included |
| TradeReports.TakersLeaveNothing | engine/processor.go:303-351 | after an immediate-or-cancel or market order has entered nothing rests under its id |
| Processors.CommandProcessor.RunExpiryCheck | engine/processor.go:665-693 | exactly the orders and stops past their expiry go, each once |
| Removals.ExpiryExactly | engine/processor.go:665-693 | after the check exactly the orders and stops with an expiry at or before the time are gone |
| Removals.ExpiryAnnounced | engine/processor.go:665-693 | each is announced once, with its slice |
| Processors.CommandProcessor.ClearAuction | engine/processor.go:1032-1112 | sweep, carry-over, cancels and opening on the heap equal the value-level clearing at the price that `Clears` admits, also over a book that is not empty |
| Processors.CheckFeedExactly | engine/processor.go:665-693 | after an expiry check the depth feed is right exactly when no resting order had expired |
| EngineTheorems.RunsStayGood | engine/processor.go:122-137 | after any run outside auctions: books sorted and in time priority, pools within capacity, ids unique, positions equal to what the trades say and summing to zero |
| EngineTheorems.DepthFeedAgrees | engine/processor.go:903-971 | without self-trade modes and expiring orders, folding the depth updates of any run - cascades and icebergs included - gives every level of the book |
| EngineFeed.FeedKeptExactly | engine/processor.go:841-940 | in every self-trade mode, one placement leaves a right feed right exactly when a scan of the book before it says so |
| EngineTheorems.ExpiryFeedExactly | engine/processor.go:665-693 | expiry leaves the feed right exactly when none of the ids rests |
| EngineTheorems.OrdersAccountedFor | engine/processor.go:841-1017 | over any run without self-trade modes, each order's accepted quantity is filled, canceled, expired, refused or still open, unless a reserve was lost |
| EngineTheorems.SimpleOrdersAccountedFor | engine/processor.go:841-1017 | the same on the inputs alone: no iceberg and no self-trade mode is submitted |
| EngineSteps.EnterLedgerExactly | engine/processor.go:303-351 | a placement leaves every order accounted for exactly when the order has no reserve or its slice is not used up on arrival, decided on the book before it |
| EngineCommands.ExpiryLedgerExactly | engine/processor.go:665-693 | expiry does so exactly when no order with a reserve is among those to expire |
| EngineTheorems.PositionsBalance | engine/positions.go:31-48 | over any run each position is bought minus sold, and all sum to zero |
| EngineTheorems.IdsStayUnique | engine/processor.go:141-559 | over any run no id is shared by the book and the stop book or used twice in either |
| EngineTheorems.RunsStayUncrossed | engine/processor.go:141-351 | a run keeps best bid below best ask throughout exactly when no order is rested, before the open or while halted, at a price at which it would have traded |
| MatchTheorems.RestUncrossed | engine/processor.go:330-338 | resting without matching keeps best bid below best ask exactly when the order would not have traded |
| EngineTheorems.RunsTrackedExactly | engine/processor.go:903-971 | without self-trade modes the feed reproduces every level throughout a run exactly when no resting order expires in it |
| EngineExact.RunsFeedExactly | engine/processor.go:841-971 | in every self-trade mode, cascades included, the feed is right after every command and every order let in exactly when nothing resting expires and each order let in passes the scan of the book it meets |
| EngineExact.CommandLedger | engine/processor.go:303-351 | without self-trade modes a command and its whole cascade leave every order accounted for exactly when it loses no reserve |
| EngineExact.RunsLedgerExactly | engine/processor.go:841-1017 | and over whole runs exactly when no command does |
| EngineTheorems.RunsServePriority | book/matching.go:57-147 | in every reachable state whatever order is let in is served by best price, then smallest sequence number |
| EngineTraces.EveryEntryServesPriority | engine/processor.go:747-819 | so is every order that enters in a run, triggered stops in the middle of a cascade included |
| EngineTraces.EntriesAreAcceptances | engine/processor.go:122-137 | those entries are exactly the orders the log announces as accepted, in that order |
| EngineTheorems.NeverCanceledForCapacity | engine/processor.go:216-227 | a resting limit order let into an open market is never canceled for want of a price level |
| EngineTheorems.StopsFireOnce | engine/processor.go:701-819 | in one command each waiting stop fires at most once, and those that leave the stop book are exactly those announced as triggered |
| EngineTheorems.HaltsOnce | engine/processor.go:701-741 | at most one halt is announced per command, and none when halted already |
| EngineCrash.CrashesExactly | stopbook/stopbook.go:92-99 | a command takes a running processor down exactly when it is a stop that passes its checks, a node is free, its trigger is new and the level pool is exhausted |
| EngineCrash.ClimbCrashes | engine/engine.go:175-182 | a run that does it, for any capacities: one stop more than there are level slots, each at a trigger price of its own |
| EngineExamples.ExpirySaysTooLittle | engine/processor.go:665-693 | an iceberg of 10 showing 5 expires: the feed keeps its level and 5 are never accounted for |
| EngineExamples.HaltedStopTakesId | engine/processor.go:462-465 | a stop let in while halted takes the id of a collected order |
| EngineExamples.ImmediateOrderRestsAcross | engine/processor.go:330-338 | an immediate-or-cancel bid above the best ask rests there while the market is halted |

## Findings

Where the code does not keep what its documentation says or a reader would expect, the project proves an input that
shows it and exactly when the code does keep it.

- **Fill-or-kill and self-trade prevention.** The dry run counts the user's own makers; the order can then rest,
  partly filled or unfilled, although it was promised to fill or be rejected (`OwnMakersDefeatFillOrKill`). Exact
  condition: `FillOrKillExactly`.
- **An incoming iceberg's reserve.** If its first slice is used up on arrival the order counts as filled and the
  rest is dropped without an event (`EngineTheorems.IcebergReserveDropped`). Exact conditions: `EnterLedgerExactly`,
  over cascades and runs `CommandLedger`, `RunsLedgerExactly`.
- **Expiry.** It reports the working slice only and announces no depth (`ExpirySaysTooLittle`). Exact conditions:
  `ExpiryLedgerExactly`, `ExpiryFeedExactly`, `CheckFeedExactly`; over runs `RunsLedgerExactly`, `RunsFeedExactly`.
- **Self-trade removals announce no depth** (`EngineTheorems.SelfTradeRemovalUnannounced`). Exact conditions:
  `FeedKeptExactly`, over cascades and runs `RunsFeedExactly`.
- **The stop book's panic.** It has 10000 stop nodes but only 1000 trigger levels, and a stop at a further trigger
  price panics (`ClimbCrashes`). Exact condition: `CrashesExactly`.
- **The least 64-bit decimal** does not read back except at precisions 2 and 12. Exact condition: `RoundTrip`.
- **The clearing price's tie-breaks look at order prices only** (`ImbalanceBetweenOrderPrices`,
  `ReferenceBetweenOrderPrices`). Exact conditions: `LeastImbalance`, `NearestExactly`.
- **Auctions.** A stop let in while halted may take the id of a collected order (`HaltedStopTakesId`; exact condition:
  `HaltedStopExactly`), and a resume strands the auction unless the state remembered from the last halt is the auction's
  (`ResumeStrandsAuction`, exact): it does when nothing was halted, and when the market was halted twice.
- **A partly filled order shows too much.** It rests showing the slice it came with, and its level with it
  (`PartlyFilledShowsTooMuch`). Exact condition: `RestedShows`.
- **An order decremented away counts as filled** although nothing traded, and the log says nothing more of it
  (`DecrementedCountsAsFilled`). Exact condition: `FilledByTradesExactly`.
- **Immediate orders rest** while the market is before its open or halted (engine/processor.go:330-338), even across
  the other side (`ImmediateOrderRestsAcross`). Exact conditions: `RestUncrossed`, `RunsStayUncrossed`.
- Where code and documentation differ the code is followed: the cascade limit halts the market but the
  stops that already fired are still placed (engine/processor.go:715-725); the README's names for stop prices,
  conversion and ownership errors are not the code's.

## Left out

- Processors.CommandProcessor.ClearAuction: needs ids that the collected orders do not share with each other or the
  book, which `PhaseKept` and `PhaseClearable` provide; over a book that already holds orders the old sequence
  numbers may break time priority, so the good state afterwards is proved for an empty book (`ClearedGood`).
- EngineTheorems.RunsStayGood: runs may follow an auction but not contain one; `DayAccountedFor` joins the two for an
  opening auction.
- AuctionSessions.DayAccountedFor: the opening auction starts from the empty market, and nothing but collected orders,
  halts and resumes comes before it is cleared; other runs up to clearing are in `PhaseRuns` and `PhaseRunsClear`.
- EngineTheorems.DepthFeedAgrees: without self-trade modes and expiry; `RunsFeedExactly` has both, exactly.
- EngineTheorems.OrdersAccountedFor: without self-trade modes, since decrement-and-cancel moves quantity without a fill
  event; `RunsLedgerExactly` is exact among such runs.
- StopBooks.StopBook.AddStop: on the panic the book is left as it was, while the program has indexed the node by then;
  nothing reads the stop book afterwards.
- The B-trees are sorted sequences of levels; their own balancing is an external library's.
- MaxDepth (book/book.go:222-249) is taken as zero, its default; it does not bound the number of levels.
- Fees, event ids, timestamps, event sequence numbers, the kind of a depth update (add, modify, delete), JSON output,
  and the volume provider.
- Goroutines, channels, timers and the routing between markets: one command at a time with its time as an argument.
- Recovery seeding, depth listings and snapshots; capacities and cascade depth are taken as configured.
- 64-bit wrap-around outside decimals and the breaker; the wide product in `Mul` (types/decimal.go:149-204), whose result
  is discarded.
- Triggered stops become orders without an expiry of their own, as in the code; their conversion flags are not modelled.
