# Verification of the matching engine and its companions

This project models the C++ matching engine of the trading platform and the
components whose correctness depends on it, and proves properties of the model in
Dafny.

- `PriceTimeBook`, `BookRuns`: the reference book. Resting orders are a finite map
  from id to side, price, volume and owner; matching picks the best price, then the
  smallest id. Whole runs, conservation and time priority are proved about it.
- `OrderMap`, `OrderPool`, `LobSide`, `BookRep`, `PriceGrid`, `PersistentLob`,
  `LobQuotes`: the engine's book with its arrays (node slab and free stack, linked
  queues, sorted level arrays, open-addressing id table), proved to refine the
  reference book together with the prices that have a level (`PriceGrid`), which
  decide what the engine refuses.
- `ShadowSpec`, `ShadowLob`, `ShadowProofs`, `ShadowQueues`, `ShadowJudging`,
  `ShadowPricing`, `ShadowHistory`, `ShadowVolumes`, `ShadowAgreement`, `EngineRun`: the
  shadow book, its soundness and completeness, and the two real books run side by side.
- `SimpleLob`, `SimpleRun`: the aggregated Python book, which the engine simulates,
  and the two real books run side by side.
- `Accounting`, `BotSpec`, `BotFleet`, `FleetScript`, `GameRun`: the contestant's account
  against the shadow's, what each bot does to the book, the caps on the bots' resting
  orders and the room they find, and the tick loop on the real book and bots.
- `HdrHistogram`: the latency histogram and its percentiles.
- `TelemetryRing`, `Rendezvous`, `HashLock`: three concurrent protocols as state
  machines in which every access to shared memory is one step, for every
  interleaving.

The engine results hold for all volumes, positive or not, except where a row says
otherwise. Every claim about the shadow book feeds it one event per accepted add,
per fill and per cancel, as the header of `game-master/shadow_lob.hpp` describes.
Signed 64-bit overflow, where a result turns on it (the level totals of both books;
the shadow's price check and product of volume and price; the two positions), is
modelled as two's-complement wrap-around; the C++ standard leaves it undefined.

Findings where the code does less than its comments suggest:

- The first level may quote a price nobody offers: an add that finds the pool
  exhausted leaves an empty level behind (`LobQuotes.PhantomQuote` builds such a
  book, `LobQuotes.FirstLevelQuotes` says exactly when a quote is real). Nothing else
  leaves one (`EngineRuns.LevelsOfferedIff`).
- A correct engine is reported by the shadow's price check for a sell below -1 cent
  while the best bid reads 0, and for a buy while the best ask plus one cent passes
  64 bits: an ask within a cent of INT64_MAX, or no ask level at all
  (`ShadowProofs.LegalFillFaults`, `LoneOrderIsAccused`). `OnlyMisquotesReported`
  says exactly what is reported over any run.
- The shadow drops a level as soon as its recorded volume is not positive, although
  orders rest there (`ShadowProofs.LostLevelIsAccused`). That a level exists exactly
  while an order rests at its price holds over a stream of events if and only if no
  close in a queue of two or more leaves a 64-bit total of 0 or less
  (`ShadowQueues.StreamExactIff`). Judged by the open orders alone, the double-fill
  and priority checks are right about every fill if and only if no close in a queue
  of three or more leaves such a total and no add comes at a price where an open order
  has lost its level (`ShadowJudging.StreamJudgesIff`): a lost level with a single
  order does no harm there (`TwoAsksStayJudged`). Positive volumes that fit 64 bits
  never lose a level (`ShadowVolumes.AdmissibleStreamsIntact`).
- A level's `total_volume` in the engine is the depth at its price only while that
  depth fits 64 bits (`LobQuotes.LevelVolumeIsDepth`).
- The price check compares with a bid quote that may read 0 although only negative bids
  are open (`ShadowPricing.BidQuoteUntil`); `WrongPriceReported` says exactly which
  prices it reports.
- The shadow's log stops at 10000 entries; `WrongFillReported`, `WrongPriceReported` and
  `StaleCancelReported` say exactly when a wrong event still shows.
- A trade of the contestant with itself moves its position: the shadow counts it as a
  buy, the tracker on the taker's side (`Accounting.BooksByParticipant`). So the
  tracker and the shadow sign a contestant's sale to itself differently, the
  shadow multiplies in 64 bits where the tracker uses 128, the tracker reports its
  cash clamped to 64 bits, and the shadow ignores position penalties.
  `Accounting.MismatchesReported` says exactly when the validation reports a mismatch
  for each of these; a charged penalty alone is always one
  (`PenaltyIsReportedAsMismatch`), and self-sells of a multiple of 2^62 never show in
  the positions.
- A cancel of UINT64_MAX matches an empty slot of the id table
  (`OrderTable.EmptyMarkIsFound`).

## Model

| member | source | states |
|---|---|---|
| `OrderTable.OrderMap.constructor` | game-master/persistent_lob.hpp:214-222 | a new table stands for the empty map, every slot as memset left it |
| `OrderTable.OrderMap.Find` | game-master/persistent_lob.hpp:247-255 | for every order id, live or not, the probe walk finds a slot exactly when the id is live, and that slot holds its entry; tombstones never break a probe path; the empty mark itself is found exactly while some slot was never used |
| `OrderTable.OrderMap.Insert` | game-master/persistent_lob.hpp:225-234 | a fresh id is added to the map the table stands for and nothing else changes; the id is dropped exactly when all 32768 slots hold live ids |
| `OrderTable.OrderMap.Place` | game-master/persistent_lob.hpp:228-231 | writing at the first slot of the probe path that is empty or a tombstone keeps every other probe path intact |
| `OrderTable.OrderMap.Erase` | game-master/persistent_lob.hpp:257-267 | for every key: the tombstone removes exactly that id from the map |
| `OrderTable.EmptyMarkIsFound` | game-master/persistent_lob.hpp:247-255 | in a new table a search for UINT64_MAX stops at a slot whose pool index is 0xFFFFFFFF, outside the pool |
| `OrderTable.OrderMap.FullTable` | game-master/persistent_lob.hpp:225-234 | a table without a free slot holds as many live ids as it has slots |
| `OrderTable.OrderMap.AtMostTableSize` | game-master/persistent_lob.hpp:225-234 | while a slot is free there are fewer live ids than slots |
| `OrderPools.OrderPool.constructor` | game-master/persistent_lob.hpp:69-74 | every index starts on the free stack, each once |
| `OrderPools.OrderPool.Alloc` | game-master/persistent_lob.hpp:77-80 | pops one free index that is then no longer free, or answers NULL_IDX exactly when none is left |
| `OrderPools.OrderPool.Release` | game-master/persistent_lob.hpp:83-86 | pushes an index that is not free; the stack cannot overflow because its entries are distinct |
| `OrderPools.RoomToRelease` | game-master/persistent_lob.hpp:83-86 | distinct free indices that miss one leave room on the stack |
| `LobSides.LobSide.Find` | game-master/persistent_lob.hpp:107-120 | binary search answers the index of the price, or -1 exactly when the price has no level, in either sort direction |
| `LobSides.LobSide.Insert` | game-master/persistent_lob.hpp:123-146 | the new level goes to the place that keeps strict order, all other levels keep their contents, and the price-to-level map gains exactly that level; -1 exactly when 256 levels exist |
| `LobSides.LobSide.Erase` | game-master/persistent_lob.hpp:149-156 | removes exactly the level at a valid index from the array and from the price-to-level map; other indices change nothing |
| `LobSides.LobSide.GetOrCreate` | game-master/persistent_lob.hpp:159-163 | an existing level is found unchanged, a missing one is opened empty, -1 exactly when the table is full and the price is new |
| `LobSides.LobSide.BestPrice` | game-master/persistent_lob.hpp:166-168 | the price better than every other level of the side, or the empty-side value |
| `LobSides.StandsForUnique` | game-master/persistent_lob.hpp:94-97 | a level array stands for one price-to-level map only |
| `BookRep.OpenLevel` | game-master/persistent_lob.hpp:272-276 | opening an empty level keeps the whole representation invariant and changes no resting order |
| `BookRep.CloseLevel` | game-master/persistent_lob.hpp:149-156 | closing an empty level keeps the invariant and changes no resting order |
| `BookRep.AppendKeepsRep` | game-master/persistent_lob.hpp:278-295 | queueing a freshly allocated node keeps the invariant (pool partition, acyclic queues with matching ends, count and 64-bit volume, sorted levels, exact id table) and adds exactly that order |
| `BookRep.ReduceKeepsRep` | game-master/persistent_lob.hpp:372-374 | a partial fill keeps the invariant and changes only the head order's volume |
| `BookRep.UnlinkKeepsRep` | game-master/persistent_lob.hpp:325-333 | unlinking the order at any position of a queue keeps the invariant and removes exactly that order |
| `BookRep.QueuesDisjoint` | game-master/persistent_lob.hpp:64-90 | a queued node is in one queue only and never on the free stack: no double free, no shared node |
| `BookRep.HeadIsTop` | game-master/persistent_lob.hpp:351-356 | the head of the first level is the order price-time priority puts first |
| `BookRep.NoLevelsNoOrders` | game-master/persistent_lob.hpp:351-351 | a side without levels has no resting order |
| `BookRep.ChainIsQueue` | game-master/persistent_lob.hpp:285-291 | the linked queue of an engine level lists exactly the orders at that price, oldest first |
| `PersistentLobs.PersistentLob.constructor` | game-master/persistent_lob.hpp:209-222 | a new book satisfies the invariant and stands for the empty reference book without levels |
| `PersistentLobs.PersistentLob.LevelFor` | game-master/persistent_lob.hpp:271-273 | finds the level, or opens it empty at its sorted place with every other level as it was; the other side and the reference book are unchanged |
| `PersistentLobs.PersistentLob.QueueNew` | game-master/persistent_lob.hpp:275-296 | takes a node from the pool and queues exactly the order with the next id at the level, or, exactly when the pool is exhausted, changes nothing |
| `PersistentLobs.PersistentLob.AddLimit` | game-master/persistent_lob.hpp:270-297 | keeps the invariant; adds exactly the order with the next id, or answers 0 and changes no order, exactly as the number of resting orders and the prices that have a level decide; an add that has found or opened its level and then finds the pool exhausted leaves exactly that price with a level |
| `PersistentLobs.PersistentLob.WalkTo` | game-master/persistent_lob.hpp:322-339 | the queue walk reaches the registered node and knows its predecessor |
| `PersistentLobs.PersistentLob.Cancel` | game-master/persistent_lob.hpp:303-341 | keeps the invariant; succeeds exactly when the id rests, and removes exactly that order, and its price from the prices with a level exactly when no order is left there; the two "should never happen" exits are unreachable |
| `PersistentLobs.PersistentLob.TradeHead` | game-master/persistent_lob.hpp:352-384 | one turn of the matching loop executes against the price-time top order for the smaller of the two volumes, names that order, its price and its owner beside the taker, removes the order exactly when it is used up, and its level exactly when no order is left there |
| `PersistentLobs.PersistentLob.TakeFromHead` | game-master/persistent_lob.hpp:372-384 | takes the volume off the head order and drops the order exactly when that uses it up |
| `PersistentLobs.PersistentLob.MarketOrder` | game-master/persistent_lob.hpp:344-387 | for any volumes the fills and the resulting book are those of the reference greedy match, last trade and fill count included; every fill is against an order of the opposite side and names its id, price and owner, the taker, the side and whether the contestant is either; the levels left are those the match has not passed, empty ones included; the loop terminates |
| `PersistentLobs.ResumesNext` | game-master/persistent_lob.hpp:351-385 | after each turn, what was filled so far followed by the match of what is left is the whole match |
| `PersistentLobs.EmptyStore` | game-master/persistent_lob.hpp:214-222 | the initial contents satisfy the invariant with every index free |
| `PriceGrids.LevelEmptyIff` | game-master/persistent_lob.hpp:332-332 | a level counts no orders exactly when no order rests at its price |
| `PriceGrids.EmptyLevelPassed` | game-master/persistent_lob.hpp:344-387 | closing an empty first level changes nothing about the levels a match leaves |
| `PriceGrids.FillPassed` | game-master/persistent_lob.hpp:351-384 | nor does an execution against the top order, once its level is closed if that was the last order there |
| `PriceGrids.AddListsIff` | game-master/persistent_lob.hpp:270-276 | while a price has a level exactly when an order rests there, an add keeps that true exactly unless it opens a level and then finds the pool exhausted |
| `PriceGrids.RemoveLists` | game-master/persistent_lob.hpp:303-341 | a cancel keeps it true |
| `PriceGrids.TradeLists` | game-master/persistent_lob.hpp:344-387 | a market order keeps it true, whatever the volumes |
| `PriceTimeBook.MatchConserves` | game-master/persistent_lob.hpp:344-387 | for all volumes, positive or not: fills plus remainder equal the request, the side loses exactly what was filled, the other side is untouched, a positive remainder means the side is empty |
| `PriceTimeBook.MatchedVolume` | game-master/persistent_lob.hpp:344-387 | with positive resting volumes the traded volume is the smaller of the request and the depth of the opposite side |
| `PriceTimeBook.MatchFollowsPriority` | game-master/persistent_lob.hpp:351-384 | each fill goes to the order that is the price-time top once the earlier makers are gone, at its price; all fills but the last take their maker's whole volume |
| `PriceTimeBook.MatchTurn` | game-master/persistent_lob.hpp:351-384 | a match is one execution against the top order followed by the match of the rest |
| `PriceTimeBook.FillsNameParties` | game-master/persistent_lob.hpp:362-371 | every fill of a match names the id, price and owner of an order of the opposite side, the taker, the taker's side, and whether the contestant is taker or maker |
| `PriceTimeBook.MatchTakesBest` | game-master/persistent_lob.hpp:351-384 | of two orders of the side, one that trades has priority over one that does not, and one that goes over one that stays |
| `PriceTimeBook.QueueUnique` | game-master/persistent_lob.hpp:285-291 | the queue at a price is determined by the resting orders |
| `PriceTimeBook.QueueDepth` | game-master/persistent_lob.hpp:292-293 | the volume along the queue of a price is the depth at that price |
| `LobQuotes.LevelVolumeIsDepth` | game-master/persistent_lob.hpp:292-293 | the total volume of every level is the depth resting at its price in 64 bits: equal to the depth exactly when the depth fits 64 bits |
| `LobQuotes.FirstLevelQuotes` | game-master/persistent_lob.hpp:166-168 | the first level quotes the top order's price exactly when it holds an order; a level left empty by an exhausted pool quotes a better price than any resting order |
| `LobQuotes.QuoteAfterRefusedAdd` | game-master/persistent_lob.hpp:270-276 | an add refused by an exhausted pool at a price better than every level: no order rests there, yet it becomes the quoted best price |
| `LobQuotes.PhantomQuote` | game-master/persistent_lob.hpp:270-276 | such a book is reached: 16384 adds at one price and a further one at a better price end with that better price quoted, for any two prices |
| `BookRuns.MarketExplained` | game-master/persistent_lob.hpp:344-387 | the fills of a market order are legal events one after the other and determine the resulting book |
| `BookRuns.RunExplained` | game-master/persistent_lob.hpp:270-387 | every run of adds, cancels and market orders emits lawful events, and they determine the final book |
| `BookRuns.Conservation` | game-master/persistent_lob.hpp:270-387 | over every run and order: resting before plus placed = filled + resting after + what was left at cancels |
| `BookRuns.PlacedOnce` | game-master/persistent_lob.hpp:278-278 | an id is placed once, so the placed volume in the conservation law is the order's original volume |
| `BookRuns.FilledAsPlaced` | game-master/persistent_lob.hpp:362-371 | every fill of a run is of an order placed before, on that side, at that price and by the owner it names as maker; its flags say whether the contestant is maker or taker |
| `BookRuns.MarketEventsNamed` | game-master/persistent_lob.hpp:362-371 | the events of a market order are fills that name its taker and side |
| `BookRuns.LastTradeIsLastFill` | game-master/persistent_lob.hpp:370-371 | over every run the last trade price is the price of the last fill and the fill count is the number of fills |
| `BookRuns.ClosedForever` | game-master/persistent_lob.hpp:303-341 | an order that is filled or cancelled is never placed, filled or cancelled again |
| `BookRuns.TimePriority` | game-master/persistent_lob.hpp:351-384 | when an order is filled, every order of that side placed at a better price, or earlier at the same price, is already cancelled or completely filled, and stays so |
| `BookRuns.RunTimePriority` | game-master/persistent_lob.hpp:351-384 | the same for every sequence of calls on an empty book |
| `ShadowLobs.ShadowLob.constructor` | game-master/shadow_lob.hpp:82-89 | a new shadow book has no orders and the initial quotes and cash |
| `ShadowLobs.ShadowLob.OnLimitAdd` | game-master/shadow_lob.hpp:94-121 | the whole new state is the one the specification gives for an add |
| `ShadowLobs.ShadowLob.OnFill` | game-master/shadow_lob.hpp:124-215 | the whole new state, log and penalties included, is the one the specification gives for a fill; the price check, the level totals, the position and the product of volume and price are in 64-bit arithmetic |
| `ShadowLobs.ShadowLob.CheckMaker` | game-master/shadow_lob.hpp:144-190 | reports a double fill and a time-priority breach exactly under their conditions |
| `ShadowLobs.ShadowLob.OnCancel` | game-master/shadow_lob.hpp:218-241 | the whole new state is the one the specification gives for a cancel |
| `ShadowLobs.ShadowLob.ValidateContestantState` | game-master/shadow_lob.hpp:245-262 | reports a 64-bit position difference above 1 and a cash difference above one cent, and nothing else |
| `ShadowLobs.RemoveIn` | game-master/shadow_lob.hpp:360-384 | takes the first occurrence of the order out of its level and drops the level once it has no volume or no orders |
| `ShadowLobs.FirstKey` | game-master/shadow_lob.hpp:386-389 | the first key of the ordered level map is the best price |
| `ShadowSpec.FillIsLogged` | game-master/shadow_lob.hpp:355-358 | a fill appends exactly its faults, in order, as far as the log has room for them |
| `ShadowProofs.LegalFillFaults` | game-master/shadow_lob.hpp:127-142 | the price check fails for a fill a correct engine may make exactly in three cases: a buy while the best ask plus one cent passes 64 bits, a sell below -1 cent while the best bid reads 0, a sell while the best bid less one cent passes 64 bits; in the 64-bit cases the price must also be beyond the wrapped bound |
| `ShadowProofs.LegalFillPasses` | game-master/shadow_lob.hpp:144-190 | a fill a correct engine may make is never a double fill or a priority breach |
| `ShadowProofs.EventMirrors` | game-master/shadow_lob.hpp:94-241 | every lawful event, with whatever volume, keeps the shadow's order table equal to the live book and reports nothing but a misquoted fill |
| `ShadowProofs.RunMirrors` | game-master/shadow_lob.hpp:94-241 | after every run, with whatever volumes and prices, the shadow holds exactly the live orders |
| `ShadowProofs.OnlyMisquotesReported` | game-master/shadow_lob.hpp:94-241 | what a correct engine is accused of over any run with 64-bit prices: exactly one price report for each fill that meets the condition of LegalFillFaults, up to the 10000 the log holds, with the penalty capped as in the source, and nothing else |
| `ShadowProofs.LoneOrderIsAccused` | game-master/shadow_lob.hpp:127-142 | both kinds of price are reported although the engine is correct: a lone bid below -1 cent that is sold to, a lone ask within a cent of INT64_MAX that is bought |
| `ShadowProofs.LostLevelIsAccused` | game-master/shadow_lob.hpp:360-389 | three asks at one price of which the first is cancelled: the level of the other two is dropped exactly when their volumes add up to nothing positive in 64 bits (-10 and 5, 2^62 and 2^62); the next, correct, buy is reported exactly then or when its price is within a cent of INT64_MAX, and a fill that skips the older one is a priority breach exactly otherwise |
| `ShadowProofs.CloseKeepsSound` | game-master/shadow_lob.hpp:360-389 | removing an order leaves every level with its other open orders, each once, and the quotes on open orders |
| `ShadowAgreement.LevelIsLiveQueue` | game-master/shadow_lob.hpp:335-336 | a shadow level lists exactly the live orders of its price, oldest first, and exists only if there are some |
| `ShadowAgreement.QueuesAgree` | game-master/shadow_lob.hpp:334-336 | engine and shadow queues are equal price by price while the levels are exact |
| `ShadowAgreement.ExactIffMirrored` | game-master/shadow_lob.hpp:334-336 | given the same open orders, the levels are exact exactly when each lists the live queue of its price, oldest first |
| `ShadowAgreement.QueuesMirroredIff` | game-master/shadow_lob.hpp:94-241 | over any run, with whatever volumes: the shadow's queues are the live queues at every moment exactly when no event drops a level that still has orders |
| `ShadowAgreement.QuotesStayNear` | game-master/shadow_lob.hpp:386-389 | for any events with 64-bit prices, right or wrong: the ask quote is the best ask level; the bid quote is the best bid level, or reads 0 while every bid level is at or below 0 |
| `ShadowAgreement.ShadowAgrees` | game-master/shadow_lob.hpp:94-241 | after every run with 64-bit positive prices in which no level is lost: queues mirrored, quotes equal the best live prices, and the log is empty exactly when no buy was filled within a cent of INT64_MAX |
| `ShadowAgreement.MisquotedExactly` | game-master/shadow_lob.hpp:127-142 | while the levels are exact a correct fill is reported exactly when it is a buy within a cent of INT64_MAX, or a sell below -1 cent that meets a bid quote of 0 or lies within a cent of INT64_MIN |
| `ShadowAgreement.NeverAccusedIff` | game-master/shadow_lob.hpp:94-241 | over every run in which no level is lost the log is empty exactly when no fill meets that condition |
| `ShadowAgreement.ShadowNeverAccuses` | game-master/shadow_lob.hpp:94-241 | for every run in which no level is lost, with bids not below -1 cent and asks a cent or more below INT64_MAX, the log stays empty, every penalty zero and the score 1 |
| `ShadowAgreement.PositiveRunIntact` | game-master/shadow_lob.hpp:94-121 | a run with positive volumes that fit 64 bits together loses no level |
| `ShadowQueues.LevelsAreNonEmptyQueues` | game-master/shadow_lob.hpp:360-384 | then a level exists exactly when an order is open at its price |
| `ShadowQueues.AddKeepsExact` | game-master/shadow_lob.hpp:94-121 | an add with a fresh id, of whatever volume, keeps the levels exact |
| `ShadowQueues.FillExactIff` | game-master/shadow_lob.hpp:192-199 | any fill, right or wrong and of any volume, keeps the levels exact exactly when it does not close an order of a longer queue leaving a 64-bit total of 0 or less |
| `ShadowQueues.CancelExactIff` | game-master/shadow_lob.hpp:218-241 | a cancel keeps them exact under the same guard, exactly |
| `ShadowQueues.StreamExactIff` | game-master/shadow_lob.hpp:94-241 | over every stream of events with fresh ids, from a correct engine or not and of any volumes: the levels are exact at every moment exactly when every close that leaves others in its queue leaves a positive 64-bit total |
| `ShadowQueues.CloseExactIff` | game-master/shadow_lob.hpp:360-384 | the one step that can go wrong: taking an order out keeps the levels exact exactly when the level had no other order or keeps a positive 64-bit total; otherwise some open order is left without a level |
| `ShadowJudging.LegalIsRight` | game-master/shadow_lob.hpp:144-190 | a fill a correct engine may make is right: its maker is the oldest open order of its side and price and has that much left |
| `ShadowJudging.FrontIsOldest` | game-master/shadow_lob.hpp:163-175 | while the levels are orderly (a level is the whole queue of its price, and where there is none at most one order is open) an order with a level is the oldest of its price exactly when it is the front of the level |
| `ShadowJudging.ExactIsOrderly` | game-master/shadow_lob.hpp:360-384 | levels that are exactly the queues of the open orders are orderly |
| `ShadowJudging.FillJudgedExactly` | game-master/shadow_lob.hpp:144-190 | while the levels are orderly a fill, whatever its maker and volume, passes the double-fill and priority checks exactly when it is right |
| `ShadowJudging.CloseOrderlyIff` | game-master/shadow_lob.hpp:360-384 | taking an order out of a queue of at most two, or with a positive 64-bit total left, keeps the levels orderly; otherwise some next fill is misjudged |
| `ShadowJudging.EventOrderlyIff` | game-master/shadow_lob.hpp:94-241 | from orderly levels, every next fill is judged rightly after an event exactly when the event meets the guard: no close in a queue of three or more leaves a 64-bit total of 0 or less, no add comes at a price where an open order has lost its level |
| `ShadowJudging.StreamJudgesIff` | game-master/shadow_lob.hpp:144-204 | over every stream with fresh ids, from a correct engine or not and of any volumes: every fill that could come next, at every moment, passes the two checks exactly when it is right, if and only if every event meets that guard |
| `ShadowJudging.IntactKeepsAges` | game-master/shadow_lob.hpp:360-384 | a stream that loses no level meets the guard |
| `ShadowJudging.TwoAsksStayJudged` | game-master/shadow_lob.hpp:360-384 | the converse fails: two asks at one price, the first cancelled; the level is lost exactly when the other volume is not positive in 64 bits, and every fill is still judged rightly |
| `ShadowJudging.WrongFillReported` | game-master/shadow_lob.hpp:144-204 | after every stream that meets the guard any further fill adds a priority or double-fill violation exactly when it is wrong and the log still has room behind the price report, if there is one |
| `ShadowPricing.BidQuoteUntil` | game-master/shadow_lob.hpp:386-389 | over every stream with fresh ids that loses no level: the bid quote is the best bid level, or 0 while that is negative and no order has been closed with a bid open since |
| `ShadowPricing.BuyChecked` | game-master/shadow_lob.hpp:127-142 | while the levels are exact a buy fails the price check exactly when it is more than one cent above the lowest open ask, the bound wrapping past 64 bits when that ask is within a cent of INT64_MAX or there is none |
| `ShadowPricing.SellChecked` | game-master/shadow_lob.hpp:127-142 | a sell fails it exactly when it is more than one cent below the highest open bid, which counts as 0 while there is none or while it is negative and not refreshed, the bound wrapping below 64 bits |
| `ShadowPricing.WrongPriceReported` | game-master/shadow_lob.hpp:127-142 | after every stream with fresh ids and 64-bit prices that loses no level, right or wrong: the price of any further fill is logged exactly when it is wrong in that sense and the log has room, and its penalty is charged exactly when it is wrong |
| `ShadowHistory.OpenOrdersAreHistory` | game-master/shadow_lob.hpp:94-241 | after every stream with fresh ids, right or wrong: the open orders are exactly those placed and not since cancelled or filled up, each with the side, price and volume it was placed with, its place in the order of placing, and what its fills have left |
| `ShadowHistory.EventMovesTotals` | game-master/shadow_lob.hpp:360-384 | while the levels are exact: an add raises its level's 64-bit total by its volume, an order taken out lowers it by what was left of it then, nothing else moves it, and a level goes exactly with its last order or when taking one out leaves 0 or less |
| `ShadowHistory.TotalsMoveAsTold` | game-master/shadow_lob.hpp:360-384 | so at every event of every stream with fresh ids that loses no level |
| `ShadowHistory.StaleCancelReported` | game-master/shadow_lob.hpp:218-241 | after every such stream a cancel is logged exactly when the engine calls it successful though the order is not open, and the log has room; the order is not open afterwards and no other order changes |
| `ShadowHistory.PenaltiesAreReports` | game-master/shadow_lob.hpp:66-80 | after any events at all: the log is the first 10000 reports, each penalty is its rate times the number of reports of its kind, logged or not, capped at its weight, and the score stays within 0 and 1 |
| `ShadowHistory.RecordsAreHistory` | game-master/shadow_lob.hpp:206-214 | the last trade price is that of the last fill, and the contestant's fill count counts the fills with the contestant on either side |
| `ShadowVolumes.EventKeepsFunded` | game-master/shadow_lob.hpp:94-241 | positive volumes, right or wrong, that keep the recorded totals within 64 bits meet the guard: the total, which fills do not reduce, covers what is open |
| `ShadowVolumes.AdmissibleStreamsIntact` | game-master/shadow_lob.hpp:94-241 | so whole streams of such events lose no level |
| `EngineRuns.FeedFills` | game-master/shadow_lob.hpp:123-124 | the fills of a market order reach the shadow one event each, in order, with the tick of the order |
| `EngineRuns.Execute` | game-master/shadow_lob.hpp:91-124 | one command on the real book and its events on the real shadow equal one step of the reference, refusals included, and the replay of its events |
| `EngineRuns.RunBoth` | game-master/shadow_lob.hpp:1-13 | any command sequence on the real structures: the book is the reference run of the commands, refusals included; the shadow has replayed exactly its events and its log is exactly the misquoted fills; while no level is lost, which positive volumes that fit 64 bits guarantee, its queues are the engine's, and with quotable prices the log is empty and the score 1 |
| `EngineRuns.EventsNamed` | game-master/shadow_lob.hpp:91-124 | an add shows its order with the next id or nothing, a withdrawal its cancel and whether the order rested, a market order fills that name its taker and side |
| `EngineRuns.ServedAllRuns` | game-master/persistent_lob.hpp:270-387 | serving the commands one after the other is the reference run of the calls they come to, each add accepted or refused as the book and its levels decide |
| `EngineRuns.LevelsOfferedIff` | game-master/persistent_lob.hpp:270-276 | over every run: a price has a level exactly while an order rests there, if and only if no add for which a level was opened found the pool exhausted |
| `SimpleLobs.SimpleLob.AddOrder` | backend/forge/local_gm.py:53-56 | adds the volume at the price on one side |
| `SimpleLobs.SimpleLob.MarketOrder` | backend/forge/local_gm.py:73-93 | fills, remaining book and last trade are those of the price-by-price sweep |
| `SimpleLobs.SortedPrices` | backend/forge/local_gm.py:78-78 | lists the prices once each, best first |
| `SimpleLobs.MatchSimulatesSweep` | backend/forge/local_gm.py:73-93 | the engine's fills merged by price are the sweep of the aggregated book, which stays in step |
| `SimpleLobs.ActSimulates` | backend/forge/local_gm.py:53-93 | one accepted add or market order keeps both books in step and yields equal merged fills |
| `SimpleLobs.RunSimulates` | backend/forge/local_gm.py:53-93 | after any common run each price holds the same volume in both books |
| `SimulatedRuns.InStepSameVolumes` | game-master/persistent_lob.hpp:292-293 | while the books are in step, every level of the engine holds the volume the aggregated book has at its price, cut to 64 bits and so the same exactly when it fits, and every price of that book has a level |
| `SimulatedRuns.Serve` | backend/forge/local_gm.py:53-93 | one add or market order on both real books: equal merged fills, and the books stay in step; an add the engine refuses is not made on the other |
| `SimulatedRuns.RunTogether` | backend/forge/local_gm.py:53-93 | whole runs on the two real books: the engine ends as the reference run and its fills are that run's, each market order's fills merged by price are the aggregated book's, and every 64-bit level total is the volume at that price, the same exactly when it fits |
| `HdrHistograms.BucketInRange` | game-master/telemetry.hpp:65-71 | 64-bit values never fall into buckets 32 to 159 or past 2047 |
| `HdrHistograms.BucketMonotone` | game-master/telemetry.hpp:65-71 | larger values never fall into lower buckets |
| `HdrHistograms.BucketLeast` | game-master/telemetry.hpp:73-78 | the decoded value is the least value of its bucket |
| `HdrHistograms.BucketErrorBound` | game-master/telemetry.hpp:65-78 | decoding a value's bucket gives at most the value and is within one part in 32 of it |
| `HdrHistograms.KthIsSortedEntry` | game-master/telemetry.hpp:86-95 | the counting definition of the k-th smallest sample is the k-th entry of the sorted samples |
| `HdrHistograms.BucketOfKth` | game-master/telemetry.hpp:90-92 | the bucket where the running count reaches k holds the k-th smallest sample |
| `HdrHistograms.HdrHistogram.Record` | game-master/telemetry.hpp:80-84 | appends the sample, negative readings as 0, and keeps every bucket count exact |
| `HdrHistograms.HdrHistogram.Percentile` | game-master/telemetry.hpp:86-95 | for p from 0 to 1 and at least one sample, the lower bound of the bucket of the k-th smallest sample, where k is the whole part of the number of samples times p, and 0 for k = 0; for a greater p the last bucket once k passes the number of samples; 0 for no samples and for negative p |
| `HdrHistograms.PercentileError` | game-master/telemetry.hpp:86-95 | the reported percentile is at most the order statistic and within one part in 32 of it |
| `Accounting.PnlTracker.ApplyFill` | game-master/pnl_tracker.hpp:22-34 | books the fill on the contestant's side and charges one penalty for the first crossing of the limit in a tick |
| `Accounting.PnlTracker.ProcessTick` | game-master/main.cpp:267-338 | a tick resets the flag, then books exactly the contestant fills in order |
| `Accounting.OnFillAccounts` | game-master/shadow_lob.hpp:206-214 | the shadow's fill handler moves position, cash and fill count by its accounting step alone |
| `Accounting.ReplayAccounts` | game-master/shadow_lob.hpp:206-214 | replaying any events, whatever they are, moves the contestant's position, cash and fill count by the accounting step of their fills alone |
| `Accounting.TickDifference` | game-master/pnl_tracker.hpp:18-34 | within a tick the two accounts part by the self-sells, by what the shadow's 64-bit product cuts off, and by one penalty exactly if a contestant fill left the position over the limit |
| `Accounting.AccountsDiffer` | game-master/pnl_tracker.hpp:18-34 | whatever events the shadow replays and however their fills fall into ticks: the positions part by twice the self-sold volume (in 64 bits), and shadow cash less tracker cash is 10^10 per tick over the limit, less twice the self-sold value, plus what the 64-bit product cuts off |
| `Accounting.CutOffIsWholeTurns` | game-master/shadow_lob.hpp:212-212 | what the 64-bit product cuts off a fill is a multiple of 2^64, and nothing exactly when the product fits |
| `Accounting.PositionsAgreeIff` | game-master/pnl_tracker.hpp:23-24 | the positions agree exactly when twice the self-sold volume is a multiple of 2^64; with positive fills whose self-sold sum fits 64 bits, exactly when the contestant never sold to itself |
| `Accounting.BooksByParticipant` | game-master/pnl_tracker.hpp:22-34 | whatever events the shadow replays and however their fills fall into ticks: both positions are the volume participant 0 bought less the volume it sold, in 64 bits, plus its trades with itself, which the shadow counts as buys and the tracker on the taker's side; the cash balances are the starting cash plus what it earned less what it spent likewise, less a penalty per tick over the limit for the tracker, plus what the 64-bit product cuts off for the shadow |
| `Accounting.ClampIsNearest` | game-master/pnl_tracker.hpp:50-56 | the clamped cash is the 64-bit number nearest to the cash |
| `Accounting.MismatchesReported` | game-master/shadow_lob.hpp:245-262 | whatever the shadow has replayed and however the fills fall into ticks, the validation against the tracker's position and clamped cash reports a position mismatch exactly when the self-sold volume is no multiple of 2^62, and a cash mismatch exactly when penalties, self-sold value, 64-bit cut-off and clamping together exceed one cent |
| `Accounting.PenaltyIsReportedAsMismatch` | game-master/shadow_lob.hpp:253-261 | in particular, without self-sells and with products and cash that fit 64 bits, it reports exactly one cash mismatch if a position penalty was charged, and nothing otherwise |
| `Accounting.Audit` | game-master/main.cpp:344-351 | the same carried out on the tracker and the shadow book: the shadow's state and log change by exactly those reports, for any stream |
| `BotFleets.OrderRing.Push` | game-master/bot_fleet.hpp:40-51 | the ring lists the last pushed ids oldest first; a full ring hands back the oldest |
| `BotFleets.BotFleet.MarketMaker` | game-master/bot_fleet.hpp:82-112 | cancels both previous quotes, then posts one bid and one ask and remembers their ids |
| `BotSpec.MakerQuotes` | game-master/bot_fleet.hpp:82-112 | after that turn the previous quotes are gone; the new bid and ask, if accepted, rest at their own prices and volumes, the bid placed first; no other order is new or changed |
| `BotFleets.BotFleet.Rest` | game-master/bot_fleet.hpp:201-204 | places an order, remembers it in the ring and cancels the one it pushes out |
| `BotFleets.BotFleet.Take` | game-master/bot_fleet.hpp:137-168 | sends market orders one after the other and leaves nothing resting |
| `BotFleets.BotFleet.MeanReversion` | game-master/bot_fleet.hpp:192-215 | the bot rests through the ring of its side |
| `BotSpec.MeanReversionPlaces` | game-master/bot_fleet.hpp:192-215 | the new order, if accepted, rests on the side, at the price and with the volume decided, owned by this bot and remembered last in the ring of that side; the order a full ring has remembered longest is gone; nothing else has changed |
| `BotFleets.BotFleet.Noise` | game-master/bot_fleet.hpp:239-258 | the bot rests through its one ring |
| `BotSpec.NoisePlaces` | game-master/bot_fleet.hpp:239-258 | likewise for the noise trader and its one ring |
| `BotSpec.TakerTrades` | game-master/bot_fleet.hpp:137-168 | each market order of a bot leaves its own side untouched, takes from the other side best orders first, and with positive volumes takes what was asked for or all there was |
| `BotFleets.BotFleet.Step` | game-master/bot_fleet.hpp:324-330 | the bots act in order and the book, its levels and the remembered ids are the reference step's, refusals included; afterwards every resting bot order is remembered; while the contestant has fewer than the pool size less 26 orders, the pool has a node left right before each add |
| `PersistentLobs.FreeNodes` | game-master/persistent_lob.hpp:64-90 | free nodes plus resting orders are the whole pool: no leak |
| `BotSpec.FleetKeepsCapped` | game-master/bot_fleet.hpp:324-330 | a fleet call keeps every resting bot order remembered by its bot, whether the engine accepts its adds or not |
| `BotSpec.ContestantKeepsCapped` | game-master/main.cpp:306-331 | no contestant move, not even cancelling a bot's order, breaks it |
| `BotSpec.RunsStayCapped` | game-master/main.cpp:247-359 | it holds after every fleet call of every run from the two seed quotes |
| `BotSpec.OrderCaps` | game-master/bot_fleet.hpp:182-258 | then at most 6 noise orders, 8 mean-reversion orders per side and 2 maker orders besides the seeds rest, and at most 26 orders are not the contestant's |
| `BotSpec.RoomForOneMore` | game-master/bot_fleet.hpp:34-54 | so the book holds at most 26 orders more than the contestant's |
| `BotSpec.BotsAlwaysFindRoom` | game-master/persistent_lob.hpp:77-80 | while the contestant has fewer orders resting than the pool's size less 26, the pool has a node left right before each of the four adds of a fleet call, whatever the bots decide |
| `BotSpec.FleetIds` | game-master/bot_fleet.hpp:324-330 | a fleet call places at most four orders |
| `BotSpec.ContestantActs` | game-master/main.cpp:306-331 | a limit order of the contestant adds one order of its terms or nothing, a market order takes from the other side as above, a cancel removes that order and no other |
| `FleetScripts.FleetServed` | game-master/bot_fleet.hpp:324-330 | a fleet call is the list of its engine calls in the order maker, momentum, mean reversion, noise, sniper |
| `FleetScripts.GameServed` | game-master/main.cpp:245-331 | every game is the run of all its engine calls, the bots' and the contestant's, on a new book |
| `FleetScripts.GamePriority` | game-master/persistent_lob.hpp:351-384 | so in every game, when anybody's order is filled, every order with priority over it that was placed before is closed for good |
| `BotSpec.SeedsAccepted` | game-master/main.cpp:245-248 | the two seed quotes are accepted and are orders 1 and 2 |
| `GameRuns.NewGame` | game-master/main.cpp:245-248 | a new game is the seeded book and bots that remember nothing |
| `GameRuns.SendAll` | game-master/main.cpp:302-331 | the contestant's orders of a tick reach the engine's book in order; the result, refusals included, is the reference's |
| `GameRuns.PlayTick` | game-master/main.cpp:262-331 | one tick on the real book and bots is the reference tick: the fleet call, then the contestant; it keeps every bot order remembered, and every bot add finds a node free if the contestant starts with fewer orders than the pool size less 26 |
| `GameRuns.GamesStayCapped` | game-master/main.cpp:247-359 | in every reference game the caps hold at every tick, before and after the fleet call, and every bot add finds a node free in any tick the contestant starts with fewer orders than the pool size less 26 |
| `GameRuns.PlayGame` | game-master/main.cpp:245-331 | a whole game on the real structures, whatever the bots decide and the contestant sends, ends exactly as the reference run of its ticks and as the run of its engine calls, so all of that holds of it |
| `TelemetryRing.NextKeepsInv` | game-master/telemetry.hpp:107-176 | every step of producer, consumer or shutdown keeps: published and unreleased events are intact, and what was read is what was published |
| `TelemetryRing.ProcessedIsPrefix` | game-master/telemetry.hpp:227-311 | in every interleaving the processed events are a prefix of the published ones, each whole, and at most 65472 behind |
| `TelemetryRing.NoOverwrite` | game-master/telemetry.hpp:107-126 | no step overwrites the slot of a published event that is not yet consumed |
| `TelemetryRing.ExitMeansDrained` | game-master/telemetry.hpp:231-231 | a consumer that has exited has processed every event ever published, for good |
| `TelemetryRing.ConsumerNeverStuck` | game-master/telemetry.hpp:231-311 | until it has exited the consumer can always step |
| `TelemetryRing.StoppedRunDrains` | game-master/telemetry.hpp:231-311 | once the game has ended every step that changes anything brings the consumer closer to its exit, so it exits after finitely many |
| `TelemetryRing.FullRingIsServed` | game-master/telemetry.hpp:107-110 | while the producer finds the ring full the consumer has events left to read or to release |
| `TelemetryRing.EventsGetPublished` | game-master/telemetry.hpp:107-126 | a waiting producer starts to write as soon as fewer than 65472 events are unreleased, and its last step publishes the very event it has waited with |
| `Rendezvous.MasterKeepsInv` | game-master/main.cpp:262-358 | every shared access of the tick loop keeps the protocol invariant, timeouts included |
| `Rendezvous.SandboxKeepsInv` | game-master/loader.cpp:134-208 | every shared access of the sandbox loop keeps it, however late it runs, the persistent words included |
| `Rendezvous.SequencesMonotone` | game-master/rendezvous.hpp:130-161 | the sandbox sequence never passes the master's, and neither ever goes back |
| `Rendezvous.AcceptedOrdersAreTheAnswer` | game-master/rendezvous.hpp:154-161 | when the wait for a tick succeeds, the master takes exactly the rows of the answer to the untorn snapshot signalled for that tick whose kind is not 0: as many as there are, in their order, each as its kind, price, volume and id |
| `Rendezvous.AnyAnswerPossible` | game-master/loader.cpp:170-187 | the contestant may answer and keep anything given what it has seen and what it had kept |
| `Rendezvous.SandboxProgress` | game-master/loader.cpp:134-208 | every step of the sandbox after it has seen a tick brings it closer to the signal for that tick |
| `Rendezvous.SandboxNeverStuck` | game-master/loader.cpp:134-208 | the sandbox can always step |
| `Rendezvous.SandboxNotices` | game-master/loader.cpp:134-150 | a sandbox that looks after a new tick was signalled starts on it |
| `Rendezvous.MasterProgress` | game-master/main.cpp:262-358 | every step of the master after its signal brings it closer to the end of the tick, whatever the sandbox does |
| `Rendezvous.WaitEnds` | game-master/rendezvous.hpp:154-161 | the master accepts an answer that is there in time, gives up after 20000 looks, and otherwise looks again |
| `Rendezvous.OrdersStable` | game-master/rendezvous.hpp:146-161 | from the sandbox's signal until the next tick is signalled the shared orders do not change, and their count changes only when a master that gave up on the tick clears it |
| `Rendezvous.MemoryCarriedOver` | game-master/loader.cpp:179-187 | the contestant computes with exactly the persistent words its previous computation kept, timed-out ticks included |
| `HashLock.StepKeepsInv` | backend/main.go:1156-1177 | every step of any goroutine keeps the lock's invariant |
| `HashLock.MutualExclusion` | backend/main.go:1156-1177 | at most one goroutine is inside per hash |
| `HashLock.HolderIsInside` | backend/main.go:1156-1177 | an entry's mutex is held only by a goroutine inside with that entry |
| `HashLock.NoDeadlock` | backend/main.go:1156-1177 | while any goroutine is on its way, some goroutine that is on its way can step |
| `HashLock.QueueMovesOn` | backend/main.go:1168-1170 | a queued goroutine can enter as soon as nobody is inside with its entry |
| `HashLock.ReferencesExact` | backend/main.go:1163-1177 | the reference count is the number of goroutines between counting in and out, and each of them finds its own entry in the table |
| `HashLock.NobodyLeft` | backend/main.go:1172-1175 | when the count reads zero no other goroutine relies on the entry |
| `HashLock.TableEmptiesOut` | backend/main.go:1173-1175 | once every goroutine is outside the table is empty |

## Left out

- Integer width elsewhere: the engine's order volumes, the shadow's remaining volumes, its cash (128 bits in the source), sequence numbers and counters are unbounded. The id hash, the percentile cast and the places named above do model their widths.
- PersistentLobs.PersistentLob.MarketOrder: with resting volumes that are not positive the taker's remainder grows, and its growth is not cut to 64 bits.
- PersistentLobs.PersistentLob.AddLimit: asks that fewer than 2^64 - 2 orders were ever accepted, because the id UINT64_MAX is the table's empty mark.
- PersistentLobs.PersistentLob.Cancel: excludes the id UINT64_MAX, for which the source reads node 0xFFFFFFFF, outside the pool (`OrderTable.EmptyMarkIsFound`).
- EngineRuns.Execute: excludes a withdrawal of UINT64_MAX for the same reason.
- GameRuns.SendAll: excludes a cancel of UINT64_MAX for the same reason.
- GameRuns.PlayGame: excludes it too; the contestant sends at most four orders a tick, as the shared order slots allow.
- OrderTable.OrderMap.Insert: excludes ids already in the table, which the engine never inserts.
- PriceTimeBook.MatchedVolume: asks for positive resting volumes; for all volumes `MatchConserves` gives what is traded.
- SimpleLobs.RunSimulates: runs without cancels and without refused adds, which the Python book does not have; prices are whole ticks, so its floating-point rounding is the identity.
- SimpleLobs.SimpleLob.AddOrder: the price is a whole tick, so rounding it to one is left out.
- SimulatedRuns.RunTogether: commands without cancels, as above; an add the engine refuses is not made on the Python book.
- HdrHistograms.HdrHistogram.Percentile: the rank is computed over real numbers, not in double precision.
- Penalty weights and the score are real numbers, not doubles.
- Bot strategies: prices, volumes and the decision to act are inputs, because the source computes them in floating point; `distribute_fills` and the maker's inventory clamp are not modelled.
- Rendezvous: the loader is taken to copy every snapshot word, one at a time, where the source copies a selection; weak memory ordering is not modelled (steps are sequentially consistent). No claim is made about orders taken after a timeout.
- TelemetryRing: the consumer's use of an event (histogram, shadow book, output rows) is one step; histogram swapping and output are not modelled.
- HashLock: the pipeline run inside the critical section is not modelled, nor a goroutine that never releases.
- The mutex around the shadow book, its JSON report and violation texts.
- `fill_snapshot`, `write_fills_to_shm`, `mid` and `spread`: copies and arithmetic over values proved here.
- The watchdog process, TSC calibration, CPU pinning, price signals, HTTP, database, container and browser code.
