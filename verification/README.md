# A verified model of the exchange and its scorer

This project models the data path of the trading exchange, from the bytes a bot sends to the verdict of the
scoring worker. It proves what each stage promises, and composes the stages: `BytesToBook` leads from the bytes
through gateway and ingress ring to the book, `JudgeDelivered` from the book through the offloader and the bytes
of the topic to the verdict, and `BytesToVerdict` joins the two.

| file | part of the system |
|---|---|
| `Orders.dfy` | orders, trade events, price-time priority |
| `FlatBook.dfy`, `TakerView.dfy` | the plain description: two sorted lists, and one greedy sweep per submission |
| `PriceLevels.dfy`, `MatchingEngine.dfy` | the engine's book with its price levels and side index, and the classes that update it in place |
| `ReusedIds.dfy` | the book when an id is used again while it rests |
| `EngineRuns.dfy` | every run of submissions and cancellations |
| `Scoring.dfy` | the stream validator, the fills, the rolling window, the consuming loop |
| `NoFalseAlarm.dfy`, `Contest.dfy` | the engine against its judge |
| `MpscQueue.dfy` | the ingress ring as a machine of atomic steps, any number of producers |
| `Ingress.dfy` | all connections, the gateway thread, the ingress ring and the worker together |
| `SpscQueue.dfy`, `KafkaOffloader.dfy`, `DropRuns.dfy` | the event ring with wrapping counters, the offloader, and a run in which it loses an event |
| `Pipeline.dfy` | the stages end to end |
| `Wire.dfy`, `Gateway.dfy`, `BotFleet.dfy`, `TradeRecords.dfy` | order messages, RFC 6455 framing, the gateway's buffers, the bots, the trade records |
| `Latency.dfy` | the latency histograms and their percentiles |
| `MemoryPool.dfy` | the free-list pool |
| `Bits.dfy`, `Sequences.dfy` | masks, exclusive-or and powers of two on integers; concatenation |

How to read it. An object of the source is a class with the same fields; its methods are proved against value
functions, and what the source promises is proved about those functions. The two rings and the offloader appear
twice: as a machine whose steps interleave freely (one step per atomic access), and as classes whose methods run
one whole call while the other threads stand still wherever they are. The clock of trade `k` and the answer the
offloader gives for event `k` are functions of `k`; every theorem holds for all of them.

Results worth knowing beyond the positive ones:

- The judge passes a run from which trades were dropped exactly when no trade is missing between two that were
  delivered (`PassesExactlyWithoutInnerDrop`).
- The offloader never drops one of the first 65536 trades (`EarlyEventsAreAccepted`). A correct engine can be
  disqualified because of a drop exactly in runs of more than 65537 trades (`DropsDisqualifyLongRuns`): then some
  interleaving refuses trade 65537, accepts the next one and still stops in order (`LosesInside`). Runs of every
  length exist (`RunsOfEveryLength`, `CorrectEngineDisqualified`).
- On a complete stream, only timestamps, prices and a clock that steps back can fail (`LegalExactlyWhenStamped`).
- `delivered` can be ahead of `published`, because the matching thread counts after the push (`DeliveredCanLead`):
  by one, and exactly while it stands between the two and the worker has counted everything pushed
  (`NothingLostInFlight`).
- `queueDepth` read by a third thread is off by a whole wrap exactly when more was popped before its second load
  than had been pushed at its first (`DepthHeadFirst`), which one item passing an empty queue is enough for
  (`DepthCanWrap`). With the loads the other way round it only counts too many (`DepthTailFirst`).
- The engine's histogram percentile is not a sample when the fraction of the total stays below one: a lone
  sample in any bucket but 0 reports a median of 0 us (`PercentileIsASample`, `LoneSampleHasNoMedian`).
- When an order id is used again while it rests, the index is untrue as soon as the order is pushed
  (`AddingIsSafeExactlyForFreshIds`). After the whole call it is true again exactly when nothing rests under that
  id any more, because the two orders sharing it were both used up (`IndexAfterAdding`).
- Order ids of two bots collide exactly when the lower one sends past its million (`IdsDisjoint`).
- The design notes ask for strict t0 < t1 < t2; the code accepts equality, and so does the model.

Assumptions that appear as preconditions: order ids are positive, fit 31 bits and are not reused, quantities are
positive, arrival stamps increase (`Admissible`; `BytesToBook` derives it for the orders of bots that each stay
within their million ids); for the verdict also a clock that does not run backwards
(`SteadyClock`) and stamps that are positive, ordered and no later than the matching clock (`Timely`).

## Model

| member | source | states |
|---|---|---|
| FlatBook.InsertAt | matching-engine/MatchingEngine.cpp:169-178 | a newcomer goes behind everything with priority over it and in front of the rest, and the list stays in price-time order |
| FlatBook.WithoutCutsOne | matching-engine/MatchingEngine.cpp:247-268 | withdrawing an id removes exactly that order and keeps the others in order |
| FlatBook.SortedIsUnique | matching-engine/OrderBook.h:18-19 | a price-time list is determined by its members |
| TakerView.SubmitIsSweep | matching-engine/MatchingEngine.cpp:169-245 | crossing the whole book after adding an order equals one greedy sweep of the opposite side, with the remainder inserted at its place |
| TakerView.SweepFillsSupply | matching-engine/MatchingEngine.cpp:203-229 | the newcomer fills the smaller of its size and all resting quantity at its limit, and keeps exactly the rest |
| TakerView.SweepInPriority | matching-engine/MatchingEngine.cpp:199-243 | makers are the best opposite orders in order, each at its own limit with the newcomer as taker, all but the last consumed completely |
| TakerView.PricesOnlyWorsen | matching-engine/MatchingEngine.cpp:199-220 | in one submission every trade is the newcomer's and prices move only against it, within its limit |
| PriceLevels.PushBackInserts | matching-engine/MatchingEngine.cpp:169-178 | appending to a price level and indexing it is insertion into the flat list, and every index entry stays true |
| PriceLevels.AddingIsSafeExactlyForFreshIds | matching-engine/MatchingEngine.cpp:169-178 | adding the latest order leaves an index that is true for some pair of lists exactly when its id is not tracked already |
| ReusedIds.IndexAfterAdding | matching-engine/MatchingEngine.cpp:169-245 | after a whole call with the latest order the index is true for some pair of lists exactly when the id was not tracked before or nothing rests under it afterwards |
| ReusedIds.AddingEnds | matching-engine/MatchingEngine.cpp:182-245 | the loop ends also when the id was in use |
| ReusedIds.TwinPass | matching-engine/MatchingEngine.cpp:199-243 | a pass does the same to the book with the shared id as to the book in which the newcomer has its own, entries under that id apart |
| PriceLevels.SetFrontEdits | matching-engine/MatchingEngine.cpp:228-229 | a partial fill changes the head of the flat list and nothing else |
| PriceLevels.RefreshMeans | matching-engine/OrderBook.h:32-41 | the refresh loop gives every tracked order behind the gap its true position and touches no other entry |
| PriceLevels.DropShifts | matching-engine/OrderBook.h:32-41 | erasing moves exactly the orders behind the gap down by one in the index |
| PriceLevels.DropRemoves | matching-engine/MatchingEngine.cpp:233-240 | untracking and erasing removes one order from the flat list and its id from the index, and the book stays consistent |
| PriceLevels.PruneKeeps | matching-engine/MatchingEngine.cpp:242-243 | removing an emptied level changes no list and leaves no empty level |
| PriceLevels.ConsistentIsProper | matching-engine/OrderBook.h:15-22 | a consistent book lists each side in order, on its own side, with no id twice |
| PriceLevels.LevelsAreDetermined | matching-engine/OrderBook.h:18-19 | the price levels are a function of the flat lists |
| PriceLevels.BestLevelsMeet | matching-engine/MatchingEngine.cpp:183-187 | the loop's test on the best prices holds exactly when the heads of the flat lists meet |
| PriceLevels.TradePassTradesHeads | matching-engine/MatchingEngine.cpp:199-243 | one pass of the loop trades the two heads and nothing else, and leaves the index true and no level empty |
| PriceLevels.WithdrawIsOneSided | matching-engine/MatchingEngine.cpp:247-268 | an indexed id leaves the book by leaving the side the index names |
| PriceLevels.UntrackedIsAbsent | matching-engine/MatchingEngine.cpp:248-249 | an id missing from the index is not resting, so ignoring its cancel is right |
| MatchingEngine.OrderBook.EraseAt | matching-engine/OrderBook.h:32-41 | the in-place erase with its refresh loop has the specified effect on all three maps, also when the index is out of range |
| MatchingEngine.MatchingEngine.AddOrder | matching-engine/MatchingEngine.cpp:169-180 | book and events are those of the flat submission, and the book stays consistent |
| MatchingEngine.MatchingEngine.Matching | matching-engine/MatchingEngine.cpp:182-245 | the loop ends, never meets an empty level, and yields the flat crossing, its events numbered on |
| MatchingEngine.MatchingEngine.Trade | matching-engine/MatchingEngine.cpp:199-243 | one pass emits the event of the two heads under the next match id and trades them |
| MatchingEngine.MatchingEngine.Publish | matching-engine/MatchingEngine.cpp:222-226 | every trade is counted, and dropped ones are counted as dropped |
| MatchingEngine.MatchingEngine.ConsumeFronts | matching-engine/MatchingEngine.cpp:228-243 | both fronts lose the traded quantity; what is used up leaves level and index |
| MatchingEngine.MatchingEngine.CancelOrder | matching-engine/MatchingEngine.cpp:247-268 | exactly the named order leaves, no trade happens, and the defensive returns are never taken |
| EngineRuns.SubmitKeepsBook | matching-engine/MatchingEngine.cpp:169-245 | a submission leaves the book sorted, sided, without repeated ids and uncrossed, and everything resting is part of what rested or came in |
| EngineRuns.CrossConserves | matching-engine/MatchingEngine.cpp:203-240 | under every id, what crossing takes off the book is what it trades |
| EngineRuns.QuantityIsConserved | matching-engine/MatchingEngine.cpp:169-268 | after every run, submitted equals traded plus resting plus cancelled, under every id |
| EngineRuns.NoOverfill | matching-engine/MatchingEngine.cpp:182-245 | nothing trades under an id beyond what was submitted under it, and no order trades more than its size, over any run |
| EngineRuns.TradesUseUpOrders | matching-engine/MatchingEngine.cpp:182-245 | each trade removes at least one resting order |
| EngineRuns.TradesAreBounded | matching-engine/MatchingEngine.cpp:169-268 | over any run, trades plus resting plus cancelled orders are at most the orders added |
| EngineRuns.AddsAreFew | matching-engine/Order.h:5 | with ids of 31 bits that are not reused, fewer than 2^31 orders can be added |
| EngineRuns.AcrossSubmissions | matching-engine/MatchingEngine.cpp:199-220 | a submission's first trade respects the price of the last trade before it when they share a buyer or a seller, and never repeats the pair |
| EngineRuns.EveryRunIsGood | matching-engine/MatchingEngine.cpp:169-268 | every reachable book is uncrossed and in order; every trade joins two submitted orders at the earlier one's limit with the later one's stamps; match ids count from one; consecutive trades keep price priority |
| Scoring.LegalExtends | telemetry/scoring_engine.py:102-119 | an event extends a legal stream exactly when it is plausible and may follow the last one |
| Scoring.ContestantState.CheckPricePriority | telemetry/scoring_engine.py:59-100 | objects exactly when a shared buyer pays less, or a shared seller gets more, than just before, beyond the tolerance |
| Scoring.ContestantState.Validate | telemetry/scoring_engine.py:102-119 | finds nothing wrong exactly when the accepted stream with this event is legal, and otherwise names a fault the event has |
| Scoring.ContestantState.Accept | telemetry/scoring_engine.py:121-130 | the stream grows by the event, fills and counters follow, and the deque is the recent part of all samples |
| Scoring.ContestantState.Prune | telemetry/scoring_engine.py:132-137 | what stays is the filter of every sample ever taken by the cutoff |
| Scoring.ContestantState.ComputeMetrics | telemetry/scoring_engine.py:139-157 | percentiles of the window in ascending order, and a score that is positive exactly for a passing contestant with samples in a positive window |
| Scoring.ContestantState.Disqualify | telemetry/scoring_engine.py:199-204 | the reason sticks and the score is -1 |
| Scoring.ContestantState.PublishWhenDue | telemetry/scoring_engine.py:323-328 | metrics are published exactly when the interval has passed, and are those of a passing contestant |
| Scoring.ContestantState.ScoreEvent | telemetry/scoring_engine.py:309-321 | an event is accepted exactly when it keeps the stream legal |
| Scoring.ContestantState.ScoreMessage | telemetry/scoring_engine.py:308-321 | one message is accepted up to its first violation |
| Scoring.ContestantState.ScoreStream | telemetry/scoring_engine.py:298-328 | on the payloads of the topic, whatever the batching: the longest legal prefix of the events is accepted, and consuming ends in a disqualification exactly when the events before the first payload of a wrong size are not legal, for a fault the next event has; a legal stream ends at that payload, and metrics published on the way are those of a passing contestant |
| Scoring.ContestantState.ScorePayload | telemetry/scoring_engine.py:308-321 | a payload of a wrong size changes nothing; the events of any other are accepted up to the first violation |
| Scoring.MatchIdsCountUp | telemetry/scoring_engine.py:102-106 | in a legal stream match ids are consecutive and t2 never decreases, between any two events |
| Scoring.BuyerNeverImproves | telemetry/scoring_engine.py:90-94 | along a run with one buyer and changing sellers the price falls by at most epsilon a step |
| Scoring.SellerNeverImproves | telemetry/scoring_engine.py:95-99 | along a run with one seller and changing buyers the price rises by at most epsilon a step |
| Scoring.FillsStep | telemetry/scoring_engine.py:126-127 | the table holds what traded under each id, and its total is twice the volume |
| Scoring.WindowStep | telemetry/scoring_engine.py:128-137 | pruning as one goes equals filtering the whole history |
| Scoring.PercentileRanks | telemetry/scoring_engine.py:160-165 | the percentile has enough samples at or below it and at or above it for its rank |
| Scoring.PercentileIsMonotone | telemetry/scoring_engine.py:160-165 | a higher percentile is at least as large |
| Scoring.Score | telemetry/scoring_engine.py:146-147 | never negative, and positive exactly for a passing contestant with trades |
| NoFalseAlarm.LegalExactlyWhenStamped | telemetry/scoring_engine.py:102-119 | for any clock, a complete engine stream is legal exactly when its stamps and prices are good and no trade is stamped before its predecessor |
| NoFalseAlarm.TradesFollowIngest | matching-engine/MatchingEngine.cpp:205-220 | with timely submissions no trade is stamped before its taker arrived |
| NoFalseAlarm.NoFalseDisqualification | telemetry/scoring_engine.py:59-119 | a well-fed engine's complete stream is legal over every run |
| NoFalseAlarm.PassesExactlyWithoutInnerDrop | matching-engine/MatchingEngine.cpp:222-224 | after drops the stream is still legal exactly when no trade is missing between two that were taken |
| NoFalseAlarm.OneInnerDropDisqualifies | telemetry/scoring_engine.py:102-104 | losing a single trade that is neither the first nor the last disqualifies every well-fed engine |
| NoFalseAlarm.RunsOfEveryLength | matching-engine/MatchingEngine.cpp:169-245 | for every n that ids leave room for there is a well-fed run of exactly n trades |
| Contest.NewcomerIsUntracked | matching-engine/OrderBook.h:22 | a fresh id never overwrites an index entry |
| Contest.Play | matching-engine/MatchingEngine.cpp:169-268 | the engine in memory has, after any admissible operations, exactly the book and trades of the flat run |
| Contest.Hold | telemetry/scoring_engine.py:298-321 | engine and judge together: disqualified exactly when a trade was dropped between two taken, never when none was dropped |
| Bits.PowerOfTwoTest | matching-engine/MPSCQueue.h:32 | n and n - 1 share no bit exactly when n is a power of two |
| Bits.MaskIsRemainder | matching-engine/MPSCQueue.h:57 | masking with a power of two less one is the remainder, for every position |
| MpscQueue.Create | matching-engine/MPSCQueue.h:27-41 | the bit test refuses exactly the capacities that are not powers of two of at least two |
| MpscQueue.StepKeeps | matching-engine/MPSCQueue.h:53-95 | every atomic step of every thread keeps the invariant that ties cell sequences to tickets |
| MpscQueue.SequenceTells | matching-engine/MPSCQueue.h:57-70 | what a producer may conclude from a sequence number below, at or above its position |
| MpscQueue.OwnedCell | matching-engine/MPSCQueue.h:73-75 | the claimant of a ticket is the only one to touch its cell until it publishes |
| MpscQueue.DequeuedInTicketOrder | matching-engine/MPSCQueue.h:53-95 | in every interleaving the dequeued items are a prefix of the claimed ones, each producer's in its own order, and unreleased tickets never exceed the capacity |
| MpscQueue.RealTimeOrder | matching-engine/MPSCQueue.h:53-95 | calls that have returned hold lower tickets than calls that begin afterwards, across producers |
| MpscQueue.FullMeansFull | matching-engine/MPSCQueue.h:57-67 | enqueue answers false exactly when, at the read of the sequence, every slot holds an unreleased ticket |
| MpscQueue.RetryMeansOvertaken | matching-engine/MPSCQueue.h:68-70 | a producer reloads only after others have claimed past it |
| MpscQueue.EmptyMeansUnpublished | matching-engine/MPSCQueue.h:81-94 | dequeue answers false exactly when the next ticket is unclaimed or not yet published |
| MpscQueue.MPSCQueue.Enqueue | matching-engine/MPSCQueue.h:53-77 | a call that runs alone appends its item, unless the ring is full, whatever the other threads were doing and however often the exchange fails |
| MpscQueue.MPSCQueue.ClaimTicket | matching-engine/MPSCQueue.h:55-71 | the retry loop claims the frontier ticket or changes nothing |
| MpscQueue.MPSCQueue.StoreItem | matching-engine/MPSCQueue.h:73-76 | the item is written and published as the two steps of the machine |
| MpscQueue.MPSCQueue.Dequeue | matching-engine/MPSCQueue.h:79-95 | a call that runs alone takes the oldest item exactly when it is published |
| SpscQueue.Create | matching-engine/SPSCQueue.h:20-28 | the bit test refuses exactly the capacities that are not powers of two of at least two |
| SpscQueue.FullTest | matching-engine/SPSCQueue.h:40-44 | the wrapped difference exceeds the capacity exactly when the ring is full, for every power of two up to 2^63 |
| SpscQueue.EmptyTest | matching-engine/SPSCQueue.h:52-55 | the wrapped counters are equal exactly when nothing is queued |
| SpscQueue.MaskOfWrapped | matching-engine/SPSCQueue.h:46-57 | masking a wrapped counter is masking the true one |
| SpscQueue.DepthHeadFirst | matching-engine/SPSCQueue.h:62-64 | a third thread that loads head and later tail gets the queued items less those popped in between, unless more was popped than had been pushed, and then a whole wrap less the gap; when the result exceeds the capacity |
| SpscQueue.DepthTailFirst | matching-engine/SPSCQueue.h:62-64 | loading tail and later head counts what was popped in between as well |
| SpscQueue.DepthCanWrap | matching-engine/SPSCQueue.h:62-64 | from any start there is an execution in which the depth read is 2^64 - 1 |
| SpscQueue.StepKeeps | matching-engine/SPSCQueue.h:39-60 | every step of either thread keeps counters, slots and history in agreement |
| SpscQueue.BoundedFifo | matching-engine/SPSCQueue.h:39-60 | over runs of any length what comes out is a prefix of what went in, the bound holds, and every unread slot still holds its item |
| SpscQueue.SPSCQueue.TryPush | matching-engine/SPSCQueue.h:39-49 | appends, or is refused exactly when full |
| SpscQueue.SPSCQueue.TryPop | matching-engine/SPSCQueue.h:51-60 | takes the oldest, or fails exactly when empty |
| SpscQueue.SPSCQueue.ApproxSize | matching-engine/SPSCQueue.h:62-64 | exact when nobody moves |
| KafkaOffloader.StepKeepsInvariant | matching-engine/KafkaOffloader.h:83-130 | every step of publisher and worker keeps the accounts |
| KafkaOffloader.NothingLostInFlight | matching-engine/KafkaOffloader.h:83-130 | at every moment the accepted events are batches, then batch in hand, then queue; batches have 1 to 1024 events; delivered leads published, by one, exactly when the publisher has pushed and not counted and everything pushed is counted as delivered |
| KafkaOffloader.DeliveredCanLead | matching-engine/KafkaOffloader.h:83-130 | from any start there is an execution to delivered 1 and published 0 |
| KafkaOffloader.RefusedExactlyWhenFull | matching-engine/KafkaOffloader.h:83-90 | in the interleaved machine a push answers false exactly when it compares while every slot is taken |
| KafkaOffloader.EarlyEventsAreAccepted | matching-engine/KafkaOffloader.h:83-90 | none of the first 65536 events is refused, in any interleaving |
| KafkaOffloader.SmallRunsDropNothing | matching-engine/KafkaOffloader.h:83-90 | up to 65536 events none is dropped, in any interleaving |
| DropRuns.LosesInside | matching-engine/KafkaOffloader.h:83-130 | from any start and for any series of more than 65537 events there is an execution that offers them all and stops in order, in which the 65537th is refused and the first and the 65538th are accepted |
| DropRuns.Drains | matching-engine/KafkaOffloader.h:109-130 | from any state after an orderly stop, wherever the worker stands, it can go on until it returns |
| KafkaOffloader.StopDrains | matching-engine/KafkaOffloader.h:74-81 | with the publisher finished before stop, everything accepted has been handed over and all counters are exact |
| KafkaOffloader.KafkaOffloader.Publish | matching-engine/KafkaOffloader.h:83-90 | queued, or dropped exactly when full, and counted accordingly |
| KafkaOffloader.KafkaOffloader.Start | matching-engine/KafkaOffloader.h:69-71 | the flag is set and there is a worker to join |
| KafkaOffloader.KafkaOffloader.Stop | matching-engine/KafkaOffloader.h:74-81 | the flag is cleared and, if a worker was running, everything queued has been handed over and counted; a second call changes nothing |
| KafkaOffloader.KafkaOffloader.Run | matching-engine/KafkaOffloader.h:109-130 | whether it starts before or after the flag is cleared, and whatever is published between its passes, the loop ends with everything accepted handed over, in order, in batches of 1 to 1024 |
| KafkaOffloader.KafkaOffloader.HandOver | matching-engine/KafkaOffloader.h:117-128 | one pass moves the front of the queue into one counted batch, or finds the queue empty and changes nothing |
| KafkaOffloader.KafkaOffloader.Fill | matching-engine/KafkaOffloader.h:117-120 | pops in order until full or empty |
| Pipeline.DeliveredIsPublished | matching-engine/MatchingEngine.cpp:32-37 | after an orderly stop the batches are the accepted trades in order |
| Pipeline.VerdictOnDelivered | matching-engine/MatchingEngine.cpp:211-226 | engine and offloader end to end, over every interleaving: whether what was delivered is legal depends only on where drops fell, and up to 65536 trades there are none |
| Pipeline.DropsDisqualifyLongRuns | matching-engine/KafkaOffloader.h:83-130 | for every well-fed run: some interleaving that stops in order delivers a stream the judge does not pass, exactly when there are more than 65537 trades |
| Pipeline.CorrectEngineDisqualified | matching-engine/KafkaOffloader.h:83-130 | there are such runs, of every length from 65538 trades on that ids leave room for |
| Pipeline.TradesAreCarried | matching-engine/MatchingEngine.cpp:211-220 | every trade of every admissible run fits its record, when the prices submitted survive eight bytes |
| Pipeline.JudgeDelivered | telemetry/scoring_engine.py:298-328 | the consuming loop on the bytes of the delivered batches unpacks every message and disqualifies exactly when a trade was dropped between two accepted ones; never for at most 65537 trades, and it counts every trade when there were at most 65536 |
| Pipeline.BytesToVerdict | matching-engine/networking/TCPServer.cpp:268-393 | from the bytes of the bots to the verdict on the bytes of the topic: disqualified exactly when a trade was dropped between two accepted ones, and never when the engine took at most 65537 orders |
| Wire.OrderRoundTrip | bot-fleet/main.py:79-91 | every field of an order message survives, in the stated ranges |
| Bits.XorTwice | matching-engine/networking/TCPServer.cpp:375 | exclusive-or with the same byte undoes itself |
| Wire.MaskTwice | matching-engine/networking/TCPServer.cpp:369-376 | unmasking undoes masking |
| Wire.ParseIsStable | matching-engine/networking/TCPServer.cpp:329-361 | what the header decides does not change when more bytes arrive |
| Wire.LengthIsRead | bot-fleet/main.py:96-104 | each of the three length encodings is read back |
| Wire.FrameRoundTrip | bot-fleet/main.py:93-107 | for every payload up to 2^20 bytes and every mask the gateway takes exactly the bot's frame and recovers the payload |
| Gateway.FramesSplit | matching-engine/networking/TCPServer.cpp:328-381 | the frame loop on two parts in turn equals the loop on the whole |
| Gateway.HandshakeIsStable | matching-engine/networking/TCPServer.cpp:299-326 | a complete request is answered the same way when more follows it |
| Gateway.FeedSplit | matching-engine/networking/TCPServer.cpp:272-393 | two reads are one read of both |
| Gateway.FeedSettles | matching-engine/networking/TCPServer.cpp:272-393 | between reads nothing is left that could already be processed |
| Gateway.ChunkingIsInvisible | matching-engine/networking/TCPServer.cpp:272-393 | however the stream is cut into reads, orders, close decision and unread bytes are the same |
| Gateway.TakeOrdersSplit | matching-engine/networking/TCPServer.cpp:279-291 | messages may straddle frames |
| Gateway.FramingIsInvisible | matching-engine/networking/TCPServer.cpp:328-381 | however the bot groups its bytes into frames and masks them, the same messages come out |
| Gateway.ClientBuffer.Handle | matching-engine/networking/TCPServer.cpp:272-393 | one read in place, compactions and all, does what the stream function says, and after the upgrade both buffers stay bounded |
| Gateway.ClientBuffer.FrameLoop | matching-engine/networking/TCPServer.cpp:328-381 | the loop ends and yields the orders and close decision of the stream function |
| Gateway.ClientBuffer.TakeFrame | matching-engine/networking/TCPServer.cpp:369-380 | a data frame yields its orders, any other frame is passed over |
| Gateway.ClientBuffer.ProcessPayloadOrders | matching-engine/networking/TCPServer.cpp:279-297 | all complete messages are taken, the rest is kept across the compaction |
| Gateway.ClientBuffer.ReadHeader | matching-engine/networking/TCPServer.cpp:330-361 | the header is read within bounds and decided as the frame format says |
| Gateway.ClientBuffer.AppendPayload | matching-engine/networking/TCPServer.cpp:369-376 | the unmasked payload joins the unread payload |
| BotFleet.IdsDisjoint | bot-fleet/main.py:21-77 | two bots share an id exactly when the lower one counts into the other's range |
| BotFleet.IdSurvives | matching-engine/networking/TCPServer.cpp:288 | an id survives the conversion to int exactly when it is below 2^31 |
| BotFleet.Bot.GenerateOrderId | bot-fleet/main.py:75-77 | the next id |
| BotFleet.Bot.FormatOrder | bot-fleet/main.py:79-91 | the packed message, or an error exactly when a value does not fit; the id is used up either way |
| BotFleet.Bot.WebsocketBinaryFrame | bot-fleet/main.py:93-107 | the frame built byte by byte is the one FrameRoundTrip is about |
| BotFleet.OrdersArrive | matching-engine/networking/TCPServer.cpp:268-393 | from bots to engine: any grouping into frames, any masks, any chunking of handshake and frames delivers exactly the orders sent |
| Ingress.ClientsDoNotMix | matching-engine/networking/TCPServer.cpp:231-265 | however one thread interleaves its reads, every connection yields the orders of its own bytes |
| Ingress.OrdersArriveSoFar | matching-engine/networking/TCPServer.cpp:268-393 | at any moment the orders out of a connection are a beginning of what its bot sent |
| Ingress.BotsDoNotCollide | bot-fleet/main.py:21-77 | orders of bots that stay within their own million have distinct ids, in any interleaving |
| Ingress.GatewayIsOrderly | matching-engine/networking/TCPServer.cpp:279-291 | everything the gateway builds was sent by a bot, fits the engine, has a fresh id and a later stamp than what came before |
| Ingress.TakenAsOffered | matching-engine/MatchingEngine.cpp:38-59 | with one producer the worker takes the orders in the order they were offered, leaving out only those refused or still on their way |
| Ingress.BytesToBook | matching-engine/MatchingEngine.cpp:52-59 | whatever the bytes are cut into and however the threads interleave, what the worker adds is an admissible run of orders that bots sent, so its book is uncrossed and in order and its trades are justified |
| TradeRecords.EventRoundTrip | matching-engine/MarketEvents.h:6-18 | every field of the 60-byte record survives |
| TradeRecords.UnpackTradeEvents | telemetry/scoring_engine.py:168-172 | a payload of the wrong size is refused, any other gives the record at each multiple of 60 |
| TradeRecords.BatchRoundTrip | telemetry/scoring_engine.py:168-172 | a batch is read back as its events |
| TradeRecords.MessageRoundTrip | telemetry/scoring_engine.py:168-172 | a message of packed trade events is decoded to those events, prices included |
| TradeRecords.BatchingIsInvisible | matching-engine/KafkaOffloader.h:132-140 | however events are cut into batches, the scorer reads the same sequence |
| Latency.BucketMeans | matching-engine/MatchingEngine.cpp:64-76 | which clock differences fall into which bucket, including the small negative ones that round to 0 |
| Latency.EverySampleIsCountedOnce | matching-engine/MatchingEngine.cpp:52-137 | in every interleaving each bucket's samples are local, shared or in one snapshot, and local counts stay at or below 65536 |
| Latency.SamplesSorted | matching-engine/MatchingEngine.cpp:139-152 | the samples a histogram stands for are in order |
| Latency.SamplesCount | matching-engine/MatchingEngine.cpp:139-152 | each bucket's count is the number of its samples |
| Latency.Percentile | matching-engine/MatchingEngine.cpp:139-152 | the two loops return the target-th smallest sample, and 0 when the target is 0 or there is no sample |
| Latency.PercentileIsASample | matching-engine/MatchingEngine.cpp:144-149 | the answer is a sample exactly when the fraction reaches one sample or bucket 0 has some |
| Latency.LoneSampleHasNoMedian | matching-engine/MatchingEngine.cpp:144-149 | in a histogram of 100000 buckets one sample anywhere has a reported median of 0 us |
| Latency.LatencyMeter.RecordOrder | matching-engine/MatchingEngine.cpp:63-80 | the order's bucket and nothing else is counted |
| Latency.LatencyMeter.FlushWhenDue | matching-engine/MatchingEngine.cpp:82-90 | every 65536 orders the local counts move to the shared ones |
| Latency.LatencyMeter.TakeSnapshot | matching-engine/MatchingEngine.cpp:130-137 | the shared counts move to the snapshot |
| Latency.AfterOrder | matching-engine/MatchingEngine.cpp:63-90 | both histograms are kept for one order |
| MemoryPool.GiveIsSound | matching-engine/MemoryPool.h:66-78 | giving a slot back keeps the pool sound, and the next allocation undoes it |
| MemoryPool.RunIsSound | matching-engine/MemoryPool.h:22-78 | after any run the free list repeats nothing, meets no live slot, and with the live slots covers all blocks |
| MemoryPool.NeverHandedOutTwice | matching-engine/MemoryPool.h:51-78 | between two hand-outs of a slot it was given back |
| MemoryPool.MemoryPool.AllocateBlock | matching-engine/MemoryPool.h:22-30 | new slots, linked in order, in front of the old free list |
| MemoryPool.MemoryPool.Chain | matching-engine/MemoryPool.h:24-27 | the loop links the slots in order and the last one to the old head |
| MemoryPool.MemoryPool.constructor | matching-engine/MemoryPool.h:33-45 | the initial slots are free and the block size is repaired |
| MemoryPool.MemoryPool.Allocate | matching-engine/MemoryPool.h:51-64 | the object gets a slot that was not in use, the head of the list or of a new block |
| MemoryPool.MemoryPool.Deallocate | matching-engine/MemoryPool.h:66-78 | the slot becomes the head of the list; null is ignored |

## Left out

- C++ weak memory orderings: steps are sequentially consistent.
- MPSC positions and sequences are unbounded; the signed difference of wrapped values is not modelled. The SPSC counters do wrap.
- IEEE doubles: prices are reals inside the engine and the scorer, and eight opaque bytes on the wire, read by a given function; infinities, NaN and rounding of scores and percentiles are not modelled.
- Scoring.ContestantState.Validate: the test for a finite price has nothing to test on reals.
- Scoring.ContestantState.ComputeMetrics: the published figures are not rounded.
- Scoring.ContestantState.ScoreStream: consumer errors and signals are not modelled; the payloads are those that arrive before one. How eight bytes are read as a price is a given function.
- Pipeline.JudgeDelivered: the topic brings every message once and in order, and prices survive their eight bytes; consumer errors and signals are not modelled.
- Pipeline.BytesToVerdict: the same, and the clock and the stamps of the orders taken are as `SteadyClock` and `Timely` say.
- MatchingEngine.MatchingEngine.AddOrder: ids in use again and stamps out of order are excluded; what the first does to the index is `IndexAfterAdding`, and the second does not arise with one gateway thread (`BytesToBook`). Zero or negative quantities and signed overflow of `int` quantities are excluded as well.
- MatchingEngine.MatchingEngine.Publish: the offloader's answer to event k is a given function of k; `VerdictOnDelivered` puts the answers of the interleaved offloader in its place.
- Contest.Hold: the same given answers; `JudgeDelivered` is the version on the offloader's own batches.
- Sockets, epoll, thread creation, pinning, printing, the size of one read: the gateway starts at an arbitrary chunk of bytes of an arbitrary connection. Clock readings are inputs.
- Gateway.ClientBuffer.Handle: the t1 stamp is added where orders are built (`Ingress.Build`); the upgrade response (SHA-1, base64) is not modelled, and whether a request carries a key is a predicate on its bytes.
- The handshake buffer before the upgrade has no bound in the source, and none here.
- librdkafka, Redis, the topic: "delivered" means handed to publishBatch.
- MpscQueue.MPSCQueue.Enqueue: one whole call with the other threads paused; free interleaving is covered by the step machine.
- MpscQueue.MPSCQueue.ClaimTicket: the same; competing claims are steps of the machine.
- MpscQueue.MPSCQueue.Dequeue: the same.
- SpscQueue.SPSCQueue.TryPush: one whole call with the consumer paused; free interleaving is covered by the step machine.
- SpscQueue.SPSCQueue.TryPop: the same with the producer paused.
- SpscQueue.SPSCQueue.ApproxSize: both threads paused between the two loads; `DepthHeadFirst` and `DepthTailFirst` let them move.
- KafkaOffloader.KafkaOffloader.Publish: one whole call with the worker paused; free interleaving is covered by the step machine.
- KafkaOffloader.KafkaOffloader.Fill: the same with the publisher paused.
- KafkaOffloader.KafkaOffloader.HandOver: the same, for one pass.
- KafkaOffloader.KafkaOffloader.Stop: nothing is published while the worker drains; publishing after stop is a step of the machine.
- KafkaOffloader.KafkaOffloader.Run: the other threads act between its passes, and publish before the flag is cleared; finer interleavings, and publishing after stop, are steps of the machine.
- Latency.LatencyMeter.RecordOrder: each histogram keeps its own copy of the loop counter; the source shares one, which counts the same orders. Local counts not yet flushed when the worker ends are never reported, as in the source.
- MemoryPool.MemoryPool.Allocate: an object in a slot is a value; constructors and destructors of the stored type, alignment and the mutex are not modelled.
- Per-second counter deltas, trade history, print stubs, bot strategies, orchestration, API and dashboard: plumbing or easy members.
