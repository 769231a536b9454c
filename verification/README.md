# Beacon, modelled and proved in Dafny

Beacon follows the XRP Ledger. It assembles a gapless stream of ledgers from many unreliable
connections, folds the changes of each ledger into time-indexed tables, and answers what a value was at
a ledger. This project models the parts of it whose correctness spans many steps, and proves what those
steps add up to.

| Dafny files | What they model |
|---|---|
| `Points`, `TokenMetrics`, `Marketcap`, `TokenOffers` | the sparse point tables, their one-pass bulk writer and its caller, and the interval rows of offers |
| `TrustLines`, `Holdings`, `TrustLineChanges`, `IouHistory`, `Reversal` | trust line changes grouped and folded into supply, holders, trust lines and balances, over whole runs |
| `Stream` | the registry and its concurrent fillers, as a state machine whose steps are the stretches between awaits |
| `Assembly`, `Dispatch` | the node pool: deduplication, buffering and emission of ledgers, and the bidding work queue |
| `Xfl` | the decimal floats of the SQLite extension: packing, order, addition, the aggregate |
| `Props`, `NftMedia`, `NftTokenId`, `AmmSeries` | property diffs with sweep, capped eviction, NFTokenID decoding, bounded sampling |
| `Wrappers`, `Collections`, `Sums` | options, ordered access to finite sets, sums over finite maps |

Where the source updates objects in place, a class with the same fields does so here, and each method's
contract ties its final state to a function; lemmas state what that function promises. Tables are maps
from the columns of their unique index; a series is a map from ledger sequence to value, and a row
written without a value holds the schema's default 0. Ledger sequences and amounts are unbounded
integers, except in `Xfl`, where the layout of the 64 bits is the subject.

## Where the code and its own words part

- **Zero over a row of the same ledger.** Writing null where a row of that very ledger exists deletes
  the row, so the read falls back to the ledger before (`Points.DeleteFallsBack`). A second pass over a
  series is therefore harmless only under the exact condition of `TokenMetrics.SecondFastPassIdempotentIff`,
  and a metric reads back what was written only under that of `TokenMetrics.MetricReadsBackIff`.
- **The bulk writer without its precondition.** Under the documented precondition it equals point-by-point
  writing for all series, zeros and nulls included. With stray rows in the range it still does so exactly
  under the condition of `TokenMetrics.FastPassIsWritePointIff`, which is told from the rows before the pass;
  `TokenMetrics.StrayRowBreaksFastPass` is a case outside it.
- **The null branch of the market cap backfill is dead.** A stored supply of zero is an object, which
  JavaScript takes for true (marketcap.js:57), so the point written is an explicit zero.
- **The market cap backfill starts at a supply row.** Between the exchange and the first supply row after it
  nothing is written, even where an older row gives a supply (`Marketcap.BackfillNeedsSupplyRow`).
- **Lost line sides.** When a modified line keeps existing but no longer issues a side, `group` passes
  nothing on (tokens.js:55-61). `IouHistory.LostSideShows` is a run in which that happens. Without excluding
  it, `IouHistory.MetricDrift` says by how much each metric is then off at every later ledger,
  `IouHistory.BalancesRead` what each balance reads, and `IouHistory.TrustlinesRightIff`,
  `IouHistory.BalanceRightIff` and `IouHistory.SupplyIsSumIff` exactly when each is right.
- **Fillers can stall.** A filler more than `maxSize` behind the consumer waits for a window that only
  moves away (stream.js:200-203). `Stream.FillersCanStall` is a run in which all of them do, and
  `Stream.StalledNeedsPush` says that only a live push of the missing ledger then helps, which it does
  (`Stream.PushResumes`). Any other filler can still act (`Stream.CanActIff`). Safety is not affected.
- **A failed XFL sum is forgotten.** The error code decodes as a small number, so the first nonzero row
  after a failure starts the aggregate afresh (`Xfl.FailureShowsIff`, with the rows of `Xfl.FailureLost`).
- **Zero sorts below every negative XFL** (`Xfl.OrderIff`).
- **Swept icons are not marked.** An icon that is no longer declared is swept without an icon mark
  (props.js:224-230, 265-274): `Props.IconMarkedIff`, `Props.SweptIconUnmarked`.
- **AMM samples are not capped at `points`,** as the comment at amm.js:147 has it, but at twice as many:
  `AmmSeries.CountBounded`, `AmmSeries.CappedIff`, `AmmSeries.BoundReached`.

## Model

| member | source | states |
|---|---|---|
| Points.LatestAt | src/db/helpers/common.js:28-38 | the row found is at or below the ledger asked for, and no row lies between |
| Points.ReadDependsOnPast | src/db/helpers/common.js:27-39 | later rows have no influence on an earlier read |
| Points.ReadAcrossGap | src/db/helpers/common.js:27-39 | a value holds until the next stored row |
| Points.WriteTouchesOneRow | src/db/helpers/common.js:42-119 | a write appears, changes or deletes the row of its own ledger and no other |
| Points.WriteOnlyChanges | src/db/helpers/common.js:50-119 | the series stays sparse: exactly which row each write makes, keeps or deletes |
| Points.WriteHiddenByLaterRow | src/db/helpers/common.js:42-119 | from the next stored row on, a write is not seen |
| Points.WriteValueReads | src/db/helpers/common.js:53-104 | a value written reads from its ledger up to the next row and nowhere else changes a read |
| Points.DeleteFallsBack | src/db/helpers/common.js:77-83 | null over a row of the same ledger brings the older value back |
| Points.WriteNullReads | src/db/helpers/common.js:76-119 | what every read gives after a null write, in all three cases |
| Points.PointTable.WritePoint | src/db/helpers/common.js:42-119 | the imperative write ends in the specified series and leaves every other series alone |
| TokenMetrics.WriteMetricSeriesBackward | src/db/helpers/tokenmetrics.js:43-101 | the loop over a table computes the fast pass, for any table and points |
| TokenMetrics.FastStepIsWritePoint | src/db/helpers/tokenmetrics.js:65-100 | one round is one `writePoint` as long as the remembered value is what a read below finds |
| TokenMetrics.SnapshotHolds | src/db/helpers/tokenmetrics.js:60-63 | the rows read before the loop still tell what is stored at each next point |
| TokenMetrics.FastLoopCarries | src/db/helpers/tokenmetrics.js:71-101 | after every round the table is the reference table and the remembered value its latest read |
| TokenMetrics.FastPassIsWritePoint | src/db/helpers/tokenmetrics.js:33-101 | for ascending points without stray rows, the fast pass leaves exactly the table of one `writePoint` per point |
| TokenMetrics.SlowFindsBelow | src/db/helpers/common.js:43-48 | what `writePoint` finds below each point, told from the rows before the pass, stray ones included |
| TokenMetrics.FastRemembers | src/db/helpers/tokenmetrics.js:70-90 | what the loop remembers at each point, told from the rows before the pass |
| TokenMetrics.FastPassIsWritePointIff | src/db/helpers/tokenmetrics.js:54-101 | whatever rows are stored, the two forms leave one table exactly if at every point without a row the remembered value and the value below agree on whether it needs one |
| TokenMetrics.FastPassOfValuesIff | src/db/helpers/tokenmetrics.js:54-90 | without nulls: exactly if each point has a row, or no stray row since the point before, or repeats that point exactly when it repeats the stray row |
| TokenMetrics.StrayRowBreaksFastPass | src/db/helpers/tokenmetrics.js:54-59 | a series and a stray row for which the two forms differ |
| TokenMetrics.SeriesReadsBack | src/db/helpers/tokenmetrics.js:73-90 | every value of a series reads back at its own ledger |
| TokenMetrics.SecondPassIdempotentIff | src/db/helpers/common.js:76-119 | writing a series again point by point changes nothing exactly when no row was left at or below a zero |
| TokenMetrics.SecondFastPassIdempotentIff | src/db/helpers/tokenmetrics.js:52-100 | a second bulk pass changes nothing exactly if, before the first, nothing but zeros was stored or declared up to each zero |
| TokenMetrics.MetricReadsBackIff | src/db/helpers/tokenmetrics.js:13-26 | a metric reads back exactly unless zero meets a row of the same ledger over a nonzero past |
| TokenMetrics.ZeroValueIsNullIff | src/db/helpers/tokenmetrics.js:22-24 | when a zero value and a null leave the same table |
| Marketcap.UpdateMarketcapFromExchange | src/ledger/derived/marketcap.js:7-81 | nothing on a failed alignment or a token of the supply pass; else both branches end in the specified market cap series; other tables stay |
| Marketcap.BackfillMeetsPrecondition | src/ledger/derived/marketcap.js:38-46 | the backfill's points ascend and no market cap row lies among them, so it writes point by point |
| Marketcap.BackfillTouchesSupplyRows | src/ledger/derived/marketcap.js:51-59 | only supply rows of the range are written, where nothing was stored |
| Marketcap.BackfillKeepsStoredRows | src/ledger/derived/marketcap.js:43-46 | every stored market cap row survives unchanged |
| Marketcap.BackfillReadsSupplyTimesPrice | src/ledger/derived/marketcap.js:48-59 | every ledger from the first supply row to the first stored market cap reads its supply times the price |
| Marketcap.BackfillReadsOutsideUnchanged | src/ledger/derived/marketcap.js:26-46 | ledgers outside the range read as before |
| Marketcap.BackfillNeedsSupplyRow | src/ledger/derived/marketcap.js:38-59 | a ledger with no supply row since the exchange reads as before, even where an older row gives it a supply |
| Marketcap.ForwardReads | src/ledger/derived/marketcap.js:60-80 | forward, every ledger up to the next stored market cap reads the supply at the exchange times the price, except a zero over a row of the same ledger |
| TokenOffers.CoveringAt | src/db/helpers/common.js:12-26 | the row found covers the ledger and is the latest to do so |
| TokenOffers.CoveringIs | src/db/helpers/common.js:12-26 | with disjoint intervals the covering row is unique |
| TokenOffers.WriteKeepsIntervalsIff | src/db/helpers/common.js:86-119 | a write keeps the intervals disjoint exactly if no offer of another book is live since an earlier ledger |
| TokenOffers.WriteStates | src/db/helpers/tokenoffers.js:4-20 | after a write the offer states the written terms from that ledger on, and the past as before |
| TokenOffers.ExpireEnds | src/db/helpers/tokenoffers.js:22-34 | after an expiry nothing covers that ledger or later ones, and the past is as before |
| TokenOffers.WriteOnlyChanges | src/db/helpers/common.js:53-99 | stating what an offer states already, or expiring what is not live, changes nothing |
| TokenOffers.OfferHistory | src/ledger/state/tokenoffers.js:57-80 | over every forward run: disjoint non-empty intervals, at most one open, and each ledger reads the offer's state at its end |
| TokenOffers.OfferTable.WritePoint | src/db/helpers/common.js:42-119 | the imperative expirable write ends in the specified rows |
| TokenOffers.OfferTable.Diff | src/ledger/state/tokenoffers.js:57-80 | expire then write, as specified for one event, other offers untouched |
| TrustLines.ParseIssuedIff | src/ledger/state/tokens.js:8-49 | which entries parse, and which sides they issue: exactly those with a limit or a balance, of the other account's token |
| TrustLines.ParseMirrors | src/ledger/state/tokens.js:12-46 | seen from the other end a line has the same sides, low for high |
| TrustLines.ParseSplitsBalance | src/ledger/state/tokens.js:12-46 | the two sides' balances recover the line's signed balance, and a side that is not issued holds none of it |
| TrustLines.Database.Count | src/ledger/state/tokens.js:99-132 | the branches of the fold take the previous side's share out and put the final side's in |
| TrustLines.Database.Diff | src/ledger/state/tokens.js:77-170 | metrics and balances of the token end as specified, every other token's tables stay |
| TrustLines.Database.ApplyDeltas | src/ledger/state/index.js:207-265 | every token's tables end as its own group alone determines, whatever the order of the groups |
| TrustLines.Database.GroupDeltas | src/ledger/state/index.js:208-251 | each group holds its token's side changes in ledger order, and no group is listed twice |
| Holdings.UnreportedIff | src/ledger/state/tokens.js:55-61 | the trust line excess counts the unreported sides and is zero exactly without them |
| Holdings.TotalHold | src/ledger/state/tokens.js:99-132 | a change moves each true total by what comes in less what goes |
| Holdings.RecordedAbove | src/ledger/state/tokens.js:99-132 | a fold that starts some way above the true total ends that way and the unreported sides above it |
| Holdings.RecordedIsTotal | src/ledger/state/tokens.js:93-132 | the same for consistent changes from any holdings |
| Holdings.TotalsAreCounts | src/ledger/state/tokens.js:93-132 | the totals are the sum of the balances, the number of counted holders, the number of sides |
| Holdings.UnreportedHangs | src/ledger/state/tokens.js:52-74 | every unreported side is still hanging or was reported again |
| Holdings.StandingAfter | src/ledger/state/tokens.js:145-161 | a change leaves its account the final balance if it is reported, and what stood before if not |
| Holdings.WrittenReads | src/ledger/state/tokens.js:145-161 | a ledger's balance writes read as holdings and hanging balances from that ledger on, and the past as before |
| Holdings.BalancesAtTotals | src/db/helpers/balances.js:5-28 | rows that read the holdings have their sum and their positive accounts |
| TrustLineChanges.SideBelongs | src/ledger/state/tokens.js:16-46 | the token and holder of a side are the two accounts of its line |
| TrustLineChanges.GroupForIsView | src/ledger/state/tokens.js:52-74 | a side passed on carries the balances of both ends; nothing is passed on exactly for a side absent on both or lost |
| TrustLineChanges.GroupOfDelta | src/ledger/state/tokens.js:52-74 | of a line's two sides only the one that issues the token reaches its group |
| TrustLineChanges.FoldedIsRecorded | src/ledger/state/tokens.js:99-132 | the fold of a ledger's group is the record of the token's changes, metric by metric |
| TrustLineChanges.WritesAreWritten | src/ledger/state/tokens.js:145-161 | the balance writes of the group are those of the token's changes |
| TrustLineChanges.HoldingsStep | src/ledger/state/tokens.js:8-74 | a delta moves the token's holdings exactly by what the group sees of it |
| TrustLineChanges.HoldingsAfter | src/ledger/state/index.js:207-265 | a ledger's deltas lead from the holdings before to the holdings after |
| TrustLineChanges.ViewsConsistent | src/ledger/state/index.js:207-265 | deltas that start from the ledger's lines give changes that start from its holdings |
| IouHistory.MetricDrift | src/ledger/state/tokens.js:52-170 | with no hypothesis on the lines, at every ledger each metric is the true one plus the sides lost so far |
| IouHistory.TrustlinesRightIff | src/ledger/state/tokens.js:55-61 | the trust line count at a ledger is right exactly when no side was lost up to it |
| IouHistory.BalancesRead | src/ledger/state/tokens.js:145-161 | with no hypothesis on the lines, every balance read is what the line held, or the balance lost unreported since the last reported change |
| IouHistory.BalanceRightIff | src/ledger/state/tokens.js:52-161 | a balance read is right exactly when nothing of that account hangs |
| IouHistory.LostHangs | src/ledger/state/tokens.js:52-74 | the sides lost in a run are those hanging and those reported again, for each metric |
| IouHistory.MetricsAboveBalances | src/ledger/state/tokens.js:77-170 | at every ledger supply and holders exceed the sum and the count of the balances read by exactly the lost sides reported again |
| IouHistory.SupplyIsSumIff | src/ledger/state/tokens.js:77-170 | supply is the sum of the balances exactly when no side lost with a balance was reported again |
| IouHistory.LostSideShows | src/ledger/state/tokens.js:55-61 | a forward run with a lost side: a balance that is gone still reads, the trust line still counts, and supply leaves the balances |
| IouHistory.IouHistory | src/ledger/state/tokens.js:77-170 | at every ledger up to which nothing was lost: supply is the sum of balances, holders the counted positive balances, trust lines the issued sides |
| Reversal.ReversedMirrors | src/ledger/state/index.js:184-186 | the reversed list runs backwards through the swapped changes |
| Reversal.ThereAndBackLeaves | src/ledger/state/index.js:183-190 | folding a ledger and then its reversal leaves exactly what either direction failed to report |
| Reversal.ReversalCancelsIff | src/ledger/state/index.js:183-190 | all three metrics return exactly when no modified line gains or loses the token's side |
| Stream.InvStep | src/xrpl/stream.js:92-144 | every step of consumer, pushes and fillers keeps the invariant |
| Stream.RunInv | src/xrpl/stream.js:187-233 | the invariant holds in every state of every run |
| Stream.ForwardDelivery | src/xrpl/stream.js:129-144 | over every interleaving, delivery is start, start + 1, ... each once |
| Stream.BackwardDelivery | src/xrpl/stream.js:53-144 | descending likewise, until the target is delivered |
| Stream.NothingForgotten | src/xrpl/stream.js:191-231 | what is still to be delivered is stored, or some filler is at it or before it |
| Stream.OneFetchPerSequence | src/xrpl/stream.js:205-230 | no two fetches of a sequence, and a reservation is its owner's position |
| Stream.QueueInWindow | src/xrpl/stream.js:92-200 | nothing stored lies further ahead than the window, or beyond the target |
| Stream.PushEffect | src/xrpl/stream.js:92-105 | a push raises the target in or out of the window, never lowers it, stores its ledger exactly within the window, and leaves the rest |
| Stream.HighestPushedIs | src/xrpl/stream.js:97 | the highest of the initial target and all pushed ledgers |
| Stream.TargetIsHighest | src/xrpl/stream.js:96-97 | over every run the target is that highest |
| Stream.TakeEffect | src/xrpl/stream.js:134-143 | the ledger at the consumer's place is handed over and dropped, and the consumer moves one towards the target |
| Stream.ForwardRound | src/xrpl/stream.js:191-217 | in sequences: when a forward filler waits, passes or fetches, and what each changes |
| Stream.BackwardRound | src/xrpl/stream.js:191-217 | the same for a backward filler, which works down to the target itself |
| Stream.FetchEffect | src/xrpl/stream.js:212-230 | a fetched ledger is stored whatever the window has become, and its reservation ends |
| Stream.FailureEffect | src/xrpl/stream.js:225-230 | a failed fetch stores nothing and keeps its reservation until the pause is over |
| Stream.RoundActsIff | src/xrpl/stream.js:192-210 | a round moves or fetches exactly inside target and window |
| Stream.LaggingIsForever | src/xrpl/stream.js:200-203 | a filler left behind the window never moves again |
| Stream.CanActIff | src/xrpl/stream.js:191-210 | an idle forward filler can ever act again exactly if it has not fallen behind the window |
| Stream.StalledNeedsPush | src/xrpl/stream.js:96-203 | once all fillers lag, only a push of the missing ledger resumes delivery |
| Stream.PushResumes | src/xrpl/stream.js:96-144 | that push does resume it |
| Stream.FillersCanStall | src/xrpl/stream.js:200-203 | such a state is reachable |
| Stream.Filler.ExtendStream | src/xrpl/stream.js:96-101 | the method takes the step of the state machine |
| Stream.Filler.TakeNext | src/xrpl/stream.js:134-143 | the method takes the consumer's step and reports the distance left |
| Stream.Filler.RunToAwait | src/xrpl/stream.js:191-217 | the loop up to its await is that many rounds of the state machine |
| Stream.Filler.FetchDone | src/xrpl/stream.js:212-230 | storing the fetched ledger and giving the reservation back, as one step |
| Assembly.AlwaysBounded | src/xrpl/nodepool.js:46-86 | whatever arrives: at most 20 pending ledgers, none complete, at most 10000 hashes, each once |
| Assembly.EvictionKeepsNewest | src/xrpl/nodepool.js:67-71 | what is evicted is older than what stays |
| Assembly.EvictKeepsNewestIff | src/xrpl/nodepool.js:67-71 | exactly the 20 newest pending ledgers stay |
| Assembly.TargetIs | src/xrpl/nodepool.js:149-170 | which ledger an event goes to: its own, or the newest pending for an untagged transaction, or none |
| Assembly.WindowIsLastNew | src/xrpl/nodepool.js:46-56 | after any events the window is the last 10000 new hashes in order of arrival |
| Assembly.RememberedIff | src/xrpl/nodepool.js:46-56 | a hash is remembered exactly if it came new and at most 10000 new ones, itself included, came since |
| Assembly.SoonIsRemembered | src/xrpl/nodepool.js:46-56 | repeats that come within that spacing are all recognised, however many hashes there are in all |
| Assembly.PieceStep | src/xrpl/nodepool.js:142-176 | a new piece joins its ledger, and the last one emits it |
| Assembly.OtherStep | src/xrpl/nodepool.js:142-176 | any other event leaves the ledger's buffer and its emissions alone |
| Assembly.EmittedExactlyOnce | src/xrpl/nodepool.js:78-176 | in any order and with any repeats: emitted once, with exactly its own transactions, as soon as and not before all pieces came |
| Assembly.SteadyRunUndisturbed | src/xrpl/nodepool.js:46-170 | tagged transactions, repeats within the window and 20 ledgers suffice for that |
| Assembly.QuietRunUndisturbed | src/xrpl/nodepool.js:46-170 | in particular at most 10000 hashes and 20 ledgers in all |
| Assembly.Pool.SawHash | src/xrpl/nodepool.js:46-56 | answers whether the hash is in the window, and remembers a new one |
| Assembly.Pool.BufferFor | src/xrpl/nodepool.js:60-75 | the loop evicts as specified |
| Assembly.Pool.TryEmitLedger | src/xrpl/nodepool.js:78-86 | a complete ledger is handed over and dropped, others stay |
| Assembly.Pool.OnEvent | src/xrpl/nodepool.js:142-176 | the handler takes the step of the state machine |
| Dispatch.BestIsFirstHighest | src/xrpl/nodepool.js:23-25 | the chosen node's bid is the highest and the first of those |
| Dispatch.BidIs | src/xrpl/node.js:89-134 | when a node bids and how much, told from its fields: idle, connected, and holding the ticket or the ledger asked for |
| Dispatch.PassInv | src/xrpl/nodepool.js:21-40 | a walk over the queue keeps the invariant, however many requests it sends |
| Dispatch.QueuedOrSentOnce | src/xrpl/nodepool.js:19-227 | in every run each submitted request is queued or was sent, once in all, and nothing else is or was |
| Dispatch.OneCommandPerNode | src/xrpl/node.js:89-165 | no node has two commands in flight, and it is busy exactly while it has one |
| Dispatch.TicketRunsOnIssuer | src/xrpl/node.js:101-160 | a command with a ticket runs only on a node that an earlier reservation drew it on |
| Dispatch.TicketHeldIff | src/xrpl/node.js:147-160 | in every run a node holds a ticket exactly if an earlier reservation drew it there |
| Dispatch.SentToServingNode | src/xrpl/nodepool.js:21-40 | in every run each request went to a node that could serve it, none of which bid more and none before it as much |
| Dispatch.FirstComeFirstServed | src/xrpl/nodepool.js:19-40 | in every run the queue is in order of submission, and of equal requests without a ticket the earlier is sent first |
| Dispatch.NoneWaitsInVain | src/xrpl/nodepool.js:21-40 | after a walk no waiting request has a node that bids for it, save a command whose ticket a reservation of the same queue could draw |
| Dispatch.Connection.Bid | src/xrpl/node.js:89-134 | the method's branches give the specified bid |
| Dispatch.Connection.Do | src/xrpl/node.js:136-165 | the connection's fields up to the first wait |
| Dispatch.Pool.BestBid | src/xrpl/nodepool.js:23-25 | finds the first highest bid and its value |
| Dispatch.Pool.WorkQueue | src/xrpl/nodepool.js:21-40 | the loop with its removals takes one pass of the state machine |
| Xfl.MakeDecodes | deps/sqlite-extensions/xfl.c:19-113 | decoding gives back mantissa and exponent of every normalised number |
| Xfl.DecodeMakes | deps/sqlite-extensions/xfl.c:19-113 | re-encoding gives back every valid code |
| Xfl.OrderIff | deps/sqlite-extensions/xfl.c:97-110 | the order of codes is that of numbers, except between zero and a negative number |
| Xfl.SumCommutesIff | deps/sqlite-extensions/xfl.c:123-149 | addition commutes on all codes but two different ones that decode to zero |
| Xfl.InvertIff | deps/sqlite-extensions/xfl.c:115-121 | turning the sign gives exactly the code of the negative number, and is its own inverse |
| Xfl.SubSelfIsZero | deps/sqlite-extensions/xfl.c:151-154 | a number less itself is zero |
| Xfl.SubError | deps/sqlite-extensions/xfl.c:151-154 | a difference is valid and off the exact one by less than ten units of the larger exponent |
| Xfl.SubMirrors | deps/sqlite-extensions/xfl.c:151-154 | the difference the other way round is its negative, and fails with it |
| Xfl.SumIs | deps/sqlite-extensions/xfl.c:123-149 | what a sum is: both numbers cut to units of the larger exponent and added, exact up to sixteen digits, else without the last digit |
| Xfl.SumWithZero | deps/sqlite-extensions/xfl.c:130-134 | with zero on either side the other number comes out |
| Xfl.SumExact | deps/sqlite-extensions/xfl.c:123-149 | numbers of one exponent with at most sixteen digits in all add up exactly |
| Xfl.ValueTellsCode | deps/sqlite-extensions/xfl.c:97-110 | two valid codes of one value are the same code |
| Xfl.CodeOfOne | deps/sqlite-extensions/xfl.c:68-113 | the packed code of the number one |
| Xfl.RaiseFailsIff | deps/sqlite-extensions/xfl.c:78-85 | normalising fails exactly below the smallest number |
| Xfl.SumFailsIff | deps/sqlite-extensions/xfl.c:78-148 | addition fails exactly on underflow of a nonzero result or overflow at the top exponent |
| Xfl.SumError | deps/sqlite-extensions/xfl.c:123-149 | the sum is valid, off by less than ten units of the larger exponent, and never above the exact one for non-negatives |
| Xfl.SumAtLeast | deps/sqlite-extensions/xfl.c:123-149 | a sum of positive numbers is at least each of them, rounding included |
| Xfl.FoldBounds | deps/sqlite-extensions/xfl.c:159-177 | n non-negatives with total below the limit: valid, not above the exact total, short by less than n times ten units of the result |
| Xfl.FoldAscends | deps/sqlite-extensions/xfl.c:159-177 | each row keeps or raises the aggregate's code |
| Xfl.FoldRelativeError | deps/sqlite-extensions/xfl.c:159-177 | the shortfall is below n parts in 10^14 of the result |
| Xfl.InvalidSurvivesIff | deps/sqlite-extensions/xfl.c:23-149 | the error code survives adding a number exactly if that is zero |
| Xfl.InvalidForgottenIff | deps/sqlite-extensions/xfl.c:23-149 | added to the error code, a nonzero number comes out unchanged exactly from exponent 0 on |
| Xfl.FailureShowsIff | deps/sqlite-extensions/xfl.c:159-177 | a failed aggregate still shows the error after later rows exactly if all of them so far are zero |
| Xfl.FailureLost | deps/sqlite-extensions/xfl.c:159-177 | three rows of which the first two fail and the third is then reported as the sum |
| Xfl.XflMake | deps/sqlite-extensions/xfl.c:68-113 | the two loops compute the specified code |
| Xfl.XflSum | deps/sqlite-extensions/xfl.c:123-149 | the two loops compute the specified sum |
| Xfl.Aggregate.Step | deps/sqlite-extensions/xfl.c:159-177 | adds one row and stays within 64 bits |
| Xfl.Aggregate.Inverse | deps/sqlite-extensions/xfl.c:179-190 | takes one row out and stays within 64 bits |
| Xfl.XflSumOf | deps/sqlite-extensions/xfl.c:159-203 | stepping through the rows of a query yields their fold |
| Props.StepRows | src/db/helpers/props.js:57-101 | one property keeps the unique index and touches no other row |
| Props.StepReads | src/db/helpers/props.js:62-98 | the property reads what was declared, in a kept row |
| Props.DiffReplaces | src/db/helpers/props.js:193-265 | whatever was stored, the source's properties are the declared list replayed from empty |
| Props.DiffDeclares | src/db/helpers/props.js:193-265 | told from the entries: a property has the value of the last naming in the list, and one that none names is gone |
| Props.DiffKeepsOtherSources | src/db/helpers/props.js:154-190 | other sources' rows stay, with their ids, and none is added |
| Props.StaleIff | src/db/helpers/props.js:168-174 | a row is swept exactly if the list does not name it |
| Props.MarksComplete | src/db/helpers/props.js:254-271 | every subject with a property that differs is marked |
| Props.MarksExactIff | src/db/helpers/props.js:254-271 | with nothing named twice, exactly those subjects are marked |
| Props.SecondDiffMarksNobody | src/db/helpers/props.js:88-275 | the same list again marks nobody |
| Props.IconMarkedIff | src/db/helpers/props.js:256-274 | icons are marked exactly where they differ and the list names them |
| Props.SweptIconUnmarked | src/db/helpers/props.js:265-274 | an icon that is swept is not marked |
| Props.PropTable.ApplyProps | src/db/helpers/props.js:57-101 | one subject's loop applies its writes and reports kept ids and changes |
| Props.PropTable.SweepStaleProps | src/db/helpers/props.js:154-190 | scan and sliced deletes are the sweep, for any slice size |
| Props.PropTable.DiffMulti | src/db/helpers/props.js:234-275 | the whole diff, the same for any chunk size: the last naming of each property counts, the rest of the source is gone |
| NftMedia.TargetIsFlooredProduct | src/cache/nftmedia.js:104 | for caps up to 10^14 bytes the floored double product is the exact 90%, rounded down |
| NftMedia.EvictReaches | src/cache/nftmedia.js:104-125 | the total ends at or below the target, or nothing is left |
| NftMedia.EvictsOldestFirst | src/cache/nftmedia.js:108-111 | what goes was served before what stays |
| NftMedia.EvictsNoMore | src/cache/nftmedia.js:116-124 | with the last one back the total would be above the target |
| NftMedia.FilesFollowRows | src/cache/nftmedia.js:77-92 | a stored thumbnail keeps its files exactly if it stays |
| NftMedia.CheckSettles | src/cache/nftmedia.js:97-131 | afterwards the total is within the cap, and a second check changes nothing |
| NftMedia.CheckEvictsIff | src/cache/nftmedia.js:97-125 | up to the cap nothing is evicted, above it something is, down to 90% of the cap |
| NftMedia.MediaCache.TotalBytes | src/cache/nftmedia.js:69-74 | computes the true total |
| NftMedia.MediaCache.EvictBatch | src/cache/nftmedia.js:116-124 | a batch is that many steps of one sorted pass, with the running total true |
| NftMedia.MediaCache.EvictIfNeeded | src/cache/nftmedia.js:97-131 | the batches end where one sorted pass ends, and the count is of the rows gone |
| NftTokenId.ScrambleTwice | src/xrpl/nftoken.js:30-32 | scrambling stays within 32 bits and is its own inverse for every serial |
| NftTokenId.FieldsIn | src/xrpl/nftoken.js:24-39 | which digits hold which field, and every bit of the taxon by the formula of XLS-20 |
| NftTokenId.ByteAt | src/xrpl/nftoken.js:26 | each byte of the issuer is two digits |
| NftTokenId.ExampleId | src/xrpl/nftoken.js:27-32 | the example of XLS-20: its scrambled taxon and serial decode to taxon 146999694 |
| NftTokenId.DecodeEncode | src/xrpl/nftoken.js:20-41 | decoding undoes the packing |
| NftTokenId.EncodeDecode | src/xrpl/nftoken.js:20-41 | exactly 64 hexadecimal digits decode, to fields in range that pack into the same id in upper case |
| NftTokenId.DecodeInjective | src/xrpl/nftoken.js:20-41 | two ids decode alike only if equal up to case |
| AmmSeries.CountBounded | src/db/helpers/amm.js:148-151 | at most twice the parts asked for |
| AmmSeries.ClampIs | src/db/helpers/amm.js:120 | a request within 1 to 1000 is taken as it is, any other as the nearer bound, modulo 2^32 |
| AmmSeries.StepIs | src/db/helpers/amm.js:148-149 | the step is the longest with which the parts fit into the range, one for short ranges |
| AmmSeries.CountAtLeast | src/db/helpers/amm.js:148-151 | at least as many samples as asked for, or every ledger |
| AmmSeries.CappedIff | src/db/helpers/amm.js:147-151 | at most `points` samples exactly if the range is shorter than `points` steps |
| AmmSeries.BoundReached | src/db/helpers/amm.js:147-151 | for every `points` from two on, a range that reaches the bound |
| AmmSeries.VisitedAt | src/db/helpers/amm.js:151 | the samples start at the range start, one step apart, inside the range |
| AmmSeries.ReadAmmPoolSeries | src/db/helpers/amm.js:114-167 | the loop gives the balances at exactly those ledgers, for every range and any integer `points` |

## Left out

- Backward application of balances, offers and stored metrics: it writes the values before a ledger at that ledger's own sequence, so history does not follow from it; only the reversal of the delta list and the market cap backfill are modelled.
- Delta building from transaction metadata (PreviousFields merged over FinalFields, state/index.js:100-181): deltas enter the model as pairs of entries.
- The backward stream after its target is delivered, where the direction test flips at stream.js:138.
- Progress of the stream and of the work queue over time, and the timers, backoff and 30-second rejection; a request whose caller was rejected stays queued, as in the source.
- Pool requests of other types than commands and ticket reservations: their bid is undefined in the source.
- Reads of points without a ledger sequence (common.js:5-11) and the selection of lookup fields (common.js:122-161).
- The expiration time of an offer: it is parsed, and the write drops it (db/helpers/tokenoffers.js:4).
- MPT aggregates, NFT pages, escrow and the other entry types, and the pseudo account lookup: the pseudo accounts are a fixed set.
- Rounding of supply and balances: the fold adds exact integers; how far XFL addition rounds is the subject of `Xfl`.
- Multiplication of supply by price: an arbitrary function.
- Market caps updated from the supply side (marketcap.js:83-107), and how an exchange is aligned to XRP: the alignment's result is given.
- The warning on a failed alignment, cache marking of metrics and the tables the marks go to.
- Props.PropTable.DiffMulti: describes the marks of the account diff; the token diff removes duplicates among its marks first (props.js:226), which compares differently named MPT fields.
- Props values are their encoded forms; a change of representation that the source over-reports does not show.
- Writers that run between the chunks of a property diff.
- NftMedia.MediaCache.EvictIfNeeded: takes 90% of the cap in exact integers, which NftMedia.TargetIsFlooredProduct ties to the floating-point product for caps up to 10^14 bytes only; ties in access time are broken by id.
- Xfl.XflMake: covers the exponents the decoders can yield, -97 to 158, which is all that its callers pass; the SQLite type check of the aggregate is left out.
- The order in which groups of different tokens are applied: TrustLines.Database.ApplyDeltas shows that it does not matter for the tables modelled.
- Headers without a transaction count (nodepool.js:81): every header is taken to carry one; a pool without any node, for which the work queue throws, and closing the pool.
- Formatting of emitted ledgers, sockets, logging, HTTP, crawling, image processing and address codecs.
