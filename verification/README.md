# Trading journal: verified model

This project models the parts of the trading journal in which several operations have to agree with
each other, and proves that they do, or exactly when they do.

**Fill ledger.** A trade is a header row and a table of fills. The header caches an aggregate of the
fills that the program computes in two places, and a result that it computes in two places as well.
`Calculations` holds both calculators and shows that each is a function of a *digest*, the image of the
fill list in a commutative monoid; from this follow independence of order and of splitting, and the exact
condition under which the header calculator agrees with the fill calculator. `Earnings` writes out what fills
and headers earn, in totals of entries and exits alone; `Columns` writes out, column by column, what both
aggregations store and exactly when they refuse; `RequestEffects` does the same for every request on a trade:
which rows it leaves, and exactly when it is accepted. `StoredHeaders` says what rounding
the columns costs that agreement: when nothing, and how much at most. `Ledger` shows that both
aggregations are that one summary. `TradeRequests` is the trade as an object whose methods carry out the
six requests, each equal to a step of a pure state machine. `TradeHistory` proves what every history of
requests keeps: the header is the stored summary of the fills unless a header-only update rewrote it since,
a refused request changes nothing, and versions lose no header edit; amounts there have at most ten decimals,
and `Aggregation` is the theorem for amounts of any number of decimals. `HeaderEdits` says exactly when a
header-only update keeps the header faithful. `Schemas` is the validator, which a
stored trade passes again each time it is shown. `Backfill` is the migration that gives old headers fills.

**Dashboard.** `Dashboard` has the metrics, and that the results the ledger leaves meet what they assume;
`Groupings` has the three tables, the loops that fill them, and the bounds within which what they show
reconciles with the metrics.

**Quotes.** `QuoteBatches` is the greedy batcher with its optimality proof, `QuoteFetch` one uncached fetch,
`QuoteCache` the single-flight cache as atomic steps of an event loop, and `QuoteCalls` what one call of it does
for the symbols it is called with.

**Two stores.** `Attachments` cuts every attachment handler into the steps between which other requests,
failures and process deaths can fall, and proves that a committed row never lacks its object, and that one kind
of failure is the only one to break this. `Orphans` proves exactly which steps leave an object behind
and that it then stays for good. `AttachmentHandlers` has the handlers themselves, each of whose runs is
recorded as a trace of these steps.

**Sessions.** `Sessions` has the guarded touch of a login session and the purge.

**Data migration.** `MigrationRows` is the order-independent canonical form, `Integrity` the one-pass source
check, `Migration` the copy that reports success only after reading back what it wrote. The outside world is
a parameter that may answer anything.

**Decimal text.** `DecimalText` is the printer and the validator of decimal numbers, down to the characters.

Amounts are exact reals. Storing into a numeric(30, 10) column rounds to ten decimals, half away from zero,
and so does `clean`; both are `Decimals.Clean`. Times are integers in microseconds. Every request is one
database transaction that commits or leaves the state alone; a guarded UPDATE is one atomic step.

Results that differ from what one might expect of the code, each stated by a lemma named below:

- A header update without a fill list, over existing fills, keeps the header faithful only under a condition
  (`HeaderEdits.HeaderOnlyUpdate`); on a partially closed trade it never does
  (`HeaderEdits.PartialTradeGoesStale`, `HeaderEdits.StaleTradeExists`), and a closed one can go stale by
  submitting its own stored header again (`HeaderEdits.ClosedTradeGoesStale`).
- Amounts of more than ten decimals make the header differ from the stored fills
  (`HeaderEdits.ElevenDecimalsAreUnfaithful`): not in times and reasons, by a bounded amount in size and fees
  (`Aggregation.AggregatedIsNear`) and, where the quantity exceeds what rounding can have added, in the average
  prices (`Aggregation.AggregatedPricesAreNear`). The six results have no such bound here.
- Versions do not protect against per-fill edits (`TradeHistory.FillEditsEscapeVersions`).
- An accepted request can commit a trade that the view then refuses to show. Per-fill edits check totals, not
  times (`Schemas.MovedEntryIsReachable`), and nothing checks the length of the reasons joined from the fills
  (`Schemas.LongReasonsAreAccepted`); with at most ten decimals these are the only two ways
  (`Schemas.FaithfulTradeShownIff`).
- Recomputing a closed trade from its stored header can differ from its fills by rounding
  (`StoredHeaders.StoredHeaderCanDiffer`). The rounding errors of the two average prices shift the gross result: a shift
  of zero is never seen (`StoredHeaders.StoredHeaderIsFaithful`), one of more than a unit of the tenth decimal always
  (`StoredHeaders.ShiftIsSeen`), one in between exactly when it moves some result across a rounding boundary
  (`StoredHeaders.StoredHeaderIsFaithfulIff`); and all six results stay within a bound
  (`StoredHeaders.StoredHeaderDrift`).
- A backfilled open trade with fees, or a partially closed one, changes when it is refreshed
  (`Backfill.RefreshAfterBackfill`).
- A memo delete and an upload to the memo can both succeed and leave objects behind for good
  (`Orphans.DeleteAndUploadRace`, `Orphans.RaceIsReachable`, `Orphans.OrphansAreForever`).
- A commit of new rows that takes effect but is reported as failed makes the clean-up take the objects of committed
  rows (`Attachments.MisreportedCommitBreaksSafety`).
- A migration with replacement does not empty the two quant tables and therefore fails its own comparison
  when they hold rows (`Migration.ReplacementClearsIff`, `Migration.ReplacementFails`); it does empty the table of
  fills (`Migration.Target.Migrate`).

## Model

| member | source | states |
|---|---|---|
| Calculations.HoldMinutes | app/calculations.py:75-77 | the minutes held are the nearest whole number, half up, and never negative |
| Earnings.WhatFillsEarn | app/calculations.py:41-78 | no result when an action is missing, a refusal when a total is not positive or nothing was spent on the amount basis, and otherwise, for any part sold: by quantity what was received less what that part cost on average, by amount what the part became less the part, by side, with net, CNY, R, winning flag and the minutes from the first entry to the last exit |
| Earnings.PartEarnsLikeItself | app/calculations.py:58-78 | a partly sold position has the gross result of one entry of the sold quantity at the average entry price and the same exits |
| Earnings.WhatHeaderEarns | app/calculations.py:87-111 | a result only when closed with both exit columns, a refusal at entry price zero, and otherwise what the whole size made between the two prices |
| Earnings.EarliestIsFirst | app/calculations.py:74 | the entry time is that of an entry, and no entry is earlier |
| Earnings.LatestIsLast | app/calculations.py:75 | the exit time is that of an exit, and no exit is later |
| Earnings.OnlyKeeps | app/calculations.py:49-50 | the fills of an action are exactly those, each as often as it occurs |
| Earnings.TotalsAdd | app/calculations.py:53-69 | quantities, notionals and fees add up over lists |
| Calculations.DigestFields | app/calculations.py:49-76 | quantities, notionals, fees, first entry, last exit and lengths of the joined reasons, as the comprehensions compute them, are the fields of one digest of the fill list |
| Calculations.CalculateExecutionsIsSettle | app/calculations.py:41-78 | the fill calculator, refusals included, depends on the digest of the fills only |
| Calculations.ResultPermutes | app/calculations.py:41-78 | profit and loss does not depend on the order of the fills |
| Calculations.ResultSplits | app/calculations.py:41-78 | splitting a fill in two of the same action, price and time with the same total quantity and fee changes no result, anywhere in the list |
| Calculations.OppositeSideNegatesGross | app/calculations.py:62-84 | trading the other side negates the rounded gross result and refuses the same inputs |
| Calculations.ClosedGrossIsNotionalDifference | app/calculations.py:62-78 | closed, on the quantity basis, exact gross is the signed difference of exit and entry notional, and net takes every fee off once |
| Calculations.ClosedGrossIsRelativeGain | app/calculations.py:62-78 | closed, on the amount basis, exact gross is the amount times the ratio of the notionals less the amount, signed by the side |
| Calculations.HeaderIsFaithful | app/calculations.py:41-111 | the calculator that sees the header gives the same gross, net, CNY, R, minutes and winning flag as the one that sees the fills, both sides and both bases, if and only if nothing was sold or everything was |
| StoredHeaders.GrossSurvivesIff | app/models.py:115-116 | the unrounded gross result survives the rounding of the two average prices iff their errors are equal (quantity basis) or in the ratio of the prices (amount basis) |
| StoredHeaders.StoredIsShifted | app/models.py:115-116 | storing moves the unrounded gross result of a closed trade by exactly the shift that the two rounding errors give, on both bases |
| StoredHeaders.StoredHeaderIsFaithful | app/calculations.py:41-111 | for a closed trade the header calculator on the stored columns gives all six results of the fills whenever those errors cancel, which is iff its unrounded gross is theirs |
| StoredHeaders.ShiftIsSeen | app/calculations.py:41-111 | a shift of more than one unit of the tenth decimal always changes a result, whatever fees, rates and risks |
| StoredHeaders.StoredHeaderIsFaithfulIff | app/calculations.py:41-111 | for every shift: all six results agree iff the shift carries neither gross, net, CNY nor R across a rounding boundary nor net across zero |
| StoredHeaders.TenAveragesAreFaithful | app/calculations.py:41-111 | in particular when both averages have ten decimals |
| StoredHeaders.StoredHeaderDrift | app/models.py:115-123 | otherwise, on both bases, gross and net differ by at most the drift of the two prices, CNY by the drift at the exchange rate, R by the drift per risk, each with one unit of the tenth decimal more; minutes agree, and the winning flag unless net is that near zero |
| StoredHeaders.StoredGrossDrift | app/models.py:115-123 | the bound on gross holds whatever the decimals of fees and terms |
| StoredHeaders.StoredHeaderCanDiffer | app/models.py:115-123 | a closed trade whose stored header yields 0.9999999999 where its fills yield 1 |
| Calculations.TradeRoundsOneNet | app/calculations.py:87-111 | net, CNY and winning flag of the header calculator come from one exact net result |
| Calculations.SettleRoundsOneNet | app/calculations.py:70-78 | so do those of the fill calculator |
| Decimals.Clean | app/calculations.py:81-84 | within half a unit of the tenth decimal, ties away from zero, sign kept |
| Decimals.CleanFixesExactlyTen | app/calculations.py:81-84 | rounding changes nothing exactly on values with at most ten decimals |
| Decimals.CleanIsTen | app/calculations.py:81-84 | what rounding yields has ten decimals and rounds to itself |
| Decimals.CleanOdd | app/calculations.py:81-84 | rounding commutes with negation |
| Decimals.CentsAreNearest | app/trading_service.py:607-616 | shown amounts are whole cents, the nearest, and of two equally near the even one |
| Ledger.SortByTimeSorts | app/trading_service.py:353-358 | the fills of a submission are taken in time order, each exactly once |
| Ledger.BuildExecutions | app/trading_service.py:350-373 | the loop accepts exactly the lists whose running position is never negative, and ends at zero when the client says closed |
| Columns.ModelsAcceptIff | app/trading_service.py:350-373 | fills are accepted iff, in time order, never more has been sold than entered, and a trade submitted as closed sells all; they are kept in that order |
| Columns.SortIsStable | app/trading_service.py:355 | fills of one time keep the order in which they were submitted |
| Columns.WrittenColumns | app/trading_service.py:303-347 | what a submission writes, column by column: first entry, last exit, size, prices at which the totals are met, all fees, joined reasons, status by what was sold, terms as submitted, and what the fills earn; without fills the header as submitted and what it earns |
| Columns.RefreshedColumns | app/trading_service.py:388-431 | a refresh writes the same of the stored rows, with the terms of the header, and without rows leaves the header alone |
| Columns.RefreshAcceptsIff | app/trading_service.py:404-405 | a refresh of valid fills is refused iff none is an entry or more was sold than entered |
| Columns.ValuesAcceptIff | app/trading_service.py:272-347 | a valid submission is refused iff its fills are |
| Ledger.TradeValuesSummarises | app/trading_service.py:303-346 | the aggregation written out for a submitted list is the summary of the digest of its fills |
| Ledger.RefreshSummarises | app/trading_service.py:388-431 | the aggregation over stored fills is refused exactly when they have no entry or oversell, and is otherwise the same summary, whatever the header held |
| Ledger.BothAggregationsAgree | app/trading_service.py:303-431 | for every accepted submission the two aggregations give the same header and results |
| Ledger.AcceptedFillsAreConsistent | app/trading_service.py:303-373 | for accepted fills the position is never negative, the first fill is an entry, neither the second guard nor the calculator refuses, the entry time is the first fill's and not after the exit time, the derived status is closed iff nothing is left, and a submitted closed is derived as closed |
| Ledger.SubmittedHeaderIsFaithful | app/trading_service.py:303-346 | on the header a submission with fills writes, the header calculator agrees with the stored results iff the trade is not partially closed |
| TradeRequests.RefreshPermutes | app/trading_service.py:389-397 | rows of equal time may be read in any order |
| TradeRequests.Trade.constructor | app/trading_service.py:535-548 | creating stores the rounded header, results and fills at version 1 |
| TradeRequests.Trade.SelectByTime | app/trading_service.py:389-397 | the fills come in time order, each exactly once |
| TradeRequests.Trade.RefreshFromExecutions | app/trading_service.py:388-431 | the stepwise refresh computes the specified aggregate from the rows in any order |
| TradeRequests.Trade.CreateExecution | app/trading_service.py:434-457 | the whole new state and reply of adding a fill, refusals included |
| TradeRequests.Trade.UpdateExecution | app/trading_service.py:460-488 | the whole new state and reply of replacing a fill, refusals included |
| TradeRequests.Trade.DeleteExecution | app/trading_service.py:491-509 | the whole new state and reply of removing a fill; removing the last leaves the header |
| TradeRequests.Trade.UpdateTrade | app/trading_service.py:376-385 | the whole new state and reply of a header edit, with or without a fill list |
| TradeRequests.Trade.DeleteTrade | app/trading_service.py:575-591 | the whole new state and reply of a soft delete |
| RequestEffects.CreateExecutionEffect | app/trading_service.py:434-457 | one new row under a new id holds the stored payload, all others stay, the header aggregates them; accepted iff not deleted and the totals stand |
| RequestEffects.UpdateExecutionEffect | app/trading_service.py:460-488 | exactly the row of the id changes, to the stored payload; accepted iff the id exists, not deleted, and the totals stand |
| RequestEffects.DeleteExecutionEffect | app/trading_service.py:491-509 | a row is left iff it was there under another id; accepted iff the id exists, not deleted, and nothing is left or the totals stand; with nothing left the header stays |
| RequestEffects.CreateTradeEffect | app/trading_service.py:535-548 | version one, not deleted, the stored figures of the submission, its fills in stored form under their own ids |
| RequestEffects.UpdateTradeEffect | app/trading_service.py:551-572 | which of the five replies is given when; an accepted update takes the figures of the submission and the next version, keeps the rows without a fill list and replaces them with one |
| RequestEffects.DeleteTradeEffect | app/trading_service.py:575-591 | which of the four replies is given when; only the mark and the version change |
| RequestEffects.HistoryIsKeyed | app/trading_service.py:434-591 | after every history an id names at most one row |
| TradeHistory.SubmittedListIsFaithful | app/trading_service.py:272-347 | writing the aggregate of a submitted list leaves a header that is the stored summary of its fills |
| TradeHistory.EditsHeal | app/trading_service.py:388-509 | any accepted per-fill edit leaves no fills, or 0 < entered, exited ≤ entered and every header and result column the stored summary of the fills, whatever the header was before |
| TradeHistory.HistoryIsFaithful | app/trading_service.py:272-591 | the same after every history of requests, unless a header-only update rewrote the header since the fills were last aggregated |
| TradeHistory.RefusalsChangeNothing | app/trading_service.py:404-405 | a refused request changes neither header nor fills, and no per-fill edit changes the version |
| TradeHistory.FaithfulIffRefreshIsStable | app/trading_service.py:388-431 | with fills, a header is faithful iff refreshing changes no column |
| TradeHistory.RefreshAfterCreate | app/trading_service.py:388-431 | refreshing right after creation changes no column |
| Aggregation.HistoryIsAggregated | app/trading_service.py:272-591 | for amounts of any number of decimals: after every history, unless a header-only update rewrote the header since, header and results are the stored aggregate of a fill list whose stored form the rows are |
| Aggregation.AggregatedIsNear | app/trading_service.py:400-420 | such a header has the times and joined reasons of its stored fills, and their size and fees within half a unit of the tenth decimal per fill and one more half |
| Aggregation.AggregatedPricesAreNear | app/trading_service.py:408-420 | and, where the stored quantity exceeds half a unit per fill, their average prices within an allowance read off the stored fills |
| Aggregation.TenDecimalsAreFaithful | app/trading_service.py:388-431 | with at most ten decimals it is the summary of the stored fills themselves |
| HeaderEdits.HeaderOnlyUpdate | app/trading_service.py:376-380 | exactly when a header-only update over fills keeps the header faithful: not partially closed, the stored columns submitted again, and, if closed, the header calculator finding the worth of the fills |
| HeaderEdits.HeaderOnlyUpdateOfExactTrade | app/trading_service.py:376-380 | when the averages have ten decimals, it is enough that the header calculator finds in the submitted columns what it finds in the stored ones |
| HeaderEdits.ResubmittedHeader | app/trading_service.py:376-380 | submitting the stored header of a closed trade again, with any terms: results within the drift of the fills; unfaithful afterwards if the shift exceeds a unit; with terms of ten decimals faithful iff the shift moves no result, as when the errors cancel |
| HeaderEdits.ClosedTradeGoesStale | app/trading_service.py:376-380 | a trade of three fills, created and then updated with its own stored header: accepted, and no longer faithful |
| HeaderEdits.PartialTradeGoesStale | app/trading_service.py:376-380 | creating a trade from two fills that leave a position, then any valid header-only update: accepted, and the header no longer that of the fills |
| HeaderEdits.StaleTradeExists | app/trading_service.py:376-380 | one such history in figures |
| HeaderEdits.ElevenDecimalsAreUnfaithful | app/trading_service.py:324-329 | two fees of 4e-11 make the created header differ from its fills |
| TradeHistory.VersionCountsSuccesses | app/trading_service.py:551-591 | after n accepted header edits the version has advanced by n |
| TradeHistory.VersionConsumedOnce | app/trading_service.py:551-591 | of two accepted header edits the later names a larger version, so each version is consumed at most once |
| TradeHistory.NoLostHeaderEdit | app/trading_service.py:551-591 | an accepted edit of a client implies that no other header edit was accepted since the client read the trade |
| TradeHistory.DeletedIsFinal | app/trading_service.py:575-591 | after a soft delete nothing is accepted and nothing changes |
| TradeHistory.FillEditsEscapeVersions | app/trading_service.py:434-572 | a header edit is accepted after any per-fill edit just as without it, and writes the same header |
| Schemas.TradeForm.Validate | app/schemas.py:424-444 | the validator accepts what its specification accepts, leaves the fields of the accepted header, and those validate to the same header |
| Schemas.ValidationKeeps | app/schemas.py:424-444 | exactly which raw trades pass; a CNY trade gets rate one whatever rate came with it, an open trade loses its three exit fields, every other field is kept |
| Schemas.FillForm.Validate | app/schemas.py:447-481 | exactly the valid fills pass, as submitted |
| Schemas.ValidationIsIdempotent | app/schemas.py:424-444 | acceptance establishes all the ledger asks of a header, and validating again changes nothing |
| Schemas.ShownIffValid | app/schemas.py:498-511 | a stored header can be shown unchanged iff it is one the validator accepts |
| Schemas.FaithfulTradeShownIff | app/schemas.py:368-439 | a faithful trade with fills can be shown iff its last exit is not before its first entry and neither joined reason is longer than 10000 characters |
| Schemas.CreatedTradeShownIff | app/trading_service.py:310-320 | a trade just created with fills, of any number of decimals, can be shown iff its joined reasons fit and no average, size, rate or risk is less than half a unit of the tenth decimal; with ten decimals none is |
| Schemas.LongReasonsAreAccepted | app/trading_service.py:310 | two entries with reasons of 6000 characters are accepted and stored, and the trade cannot be shown |
| Schemas.MovedEntryIsAccepted | app/trading_service.py:460-488 | moving the entry of a one-in-one-out trade to any time is accepted, and the trade can be shown afterwards iff the exit is not earlier |
| Schemas.MovedEntryIsReachable | app/trading_service.py:460-488 | creating a trade from an entry and a later exit, then moving the entry behind the exit: accepted, and the trade cannot be shown |
| Backfill.Database.InsertEntries | alembic/versions/0004_backfill_trade_executions.py:19-48 | the first guarded INSERT appends one marked entry for each trade without one in the snapshot |
| Backfill.Database.InsertExits | alembic/versions/0004_backfill_trade_executions.py:52-83 | the second appends one marked exit for each trade with both exit columns and no exit in the snapshot |
| Backfill.Database.Upgrade | alembic/versions/0004_backfill_trade_executions.py:16-83 | the table after both statements |
| Backfill.UpgradeTwice | alembic/versions/0004_backfill_trade_executions.py:16-83 | a second upgrade inserts nothing, whatever the table held |
| Backfill.DowngradeUndoesUpgrade | alembic/versions/0004_backfill_trade_executions.py:86-92 | the downgrade takes out exactly what the upgrade put in |
| Backfill.UpgradeBackfills | alembic/versions/0004_backfill_trade_executions.py:16-83 | among any other trades, a trade without fills gets exactly its entry, and its exit when both exit columns are set |
| Backfill.UpgradeAddsExactly | alembic/versions/0004_backfill_trade_executions.py:16-83 | whatever rows a trade has, it gets an entry iff it has none and an exit iff it has none and both exit columns are set, with the columns of the header and the fees on the exit |
| Backfill.BackfillSummary | alembic/versions/0004_backfill_trade_executions.py:16-83 | the summary of the inserted fills is the old header, with its status read off the exit columns |
| Backfill.BackfillPreservesResult | alembic/versions/0004_backfill_trade_executions.py:16-83 | on the inserted fills of a closed trade the fill calculator gives what the header calculator gave on the header |
| Backfill.RefreshAfterBackfill | app/trading_service.py:388-431 | refreshing a backfilled trade is never refused, and changes no column iff it is closed, or open without fees |
| Dashboard.HistoryIsSound | app/trading_service.py:272-591 | after every history, stale or not, the stored result rounds one exact net result at the rate last computed with, of which the stored rate is the rounding, and a closed trade has one |
| Dashboard.TenRatesAreStored | app/trading_service.py:272-591 | when the submitted rates have ten decimals that rate is the stored one |
| Dashboard.LedgerItemsAreComputed | app/trading_service.py:594-598 | so a trade as any history left it meets what the metrics assume, and is counted if it is closed |
| Dashboard.ItemSigns | app/trading_service.py:594-603 | no trade both wins and loses, winners show at least 0 and losers at most 0, and the rest at most (fx + 1) × 0.5e-10 |
| Dashboard.MetricsReconcile | app/trading_service.py:594-603 | unrounded net is gross profit less gross loss up to (fx + 1) × 0.5e-10 per trade that is neither |
| Dashboard.LedgerMetricsReconcile | app/trading_service.py:594-603 | for any trades the ledger left, with no further assumption, and every closed one is counted |
| Dashboard.MetricsMean | app/trading_service.py:594-616 | each figure as an equation over the trades: counts, net, won, lost, win rate, total R, average, grade rate and profit factor, and when each is missing |
| Groupings.GroupsPartition | app/trading_service.py:618-638 | for any labelling and any weight, the groups' sums add up to the sum over the trades |
| Groupings.ShownSumIsNear | app/trading_service.py:626-634 | rounding the groups to cents moves their total by at most 0.005 per group |
| Groupings.SettledCarryEverything | app/trading_service.py:594-598 | the closed trades weigh what the metrics' trades weigh, and are as many iff each has a result |
| Groupings.TablesReconcile | app/trading_service.py:594-673 | by market, strategy or day: counts sum to the closed trades, unrounded amounts to the metrics' net, shown amounts to the shown net within 0.005 × (groups + 1) |
| Groupings.Breakdown | app/trading_service.py:618-638 | the loop yields one group per label with its count, rounded sum and win rate, in descending order of the shown sum; its counts sum to the closed trades, its shown amounts to the shown net within 0.005 × (groups + 1) |
| Groupings.GroupMeans | app/trading_service.py:626-637 | a group shows its label, its number of trades, their sum in cents and the share that won |
| Groupings.MembersKeep | app/trading_service.py:619-625 | a group holds exactly the trades of its label |
| Groupings.LabelsMean | app/trading_service.py:618-625 | the names of the two markets, and of what is not filled in |
| Groupings.SortGroupsSorts | app/trading_service.py:638 | the groups are put in descending order and none is lost |
| Groupings.DailyTable | app/trading_service.py:641-650 | the loop yields a row for each day of a closed trade and no other, in date order, with the count and rounded sum of that day's trades; counts and amounts reconcile like those of the groups |
| Groupings.SortDaysSorts | app/trading_service.py:668-671 | the days are put in date order and none is lost |
| Groupings.Tables | app/trading_service.py:668-673 | metrics and the three tables of one page, by day, by market label and by strategy label, each reconciled with the metrics |
| QuoteBatches.SplitSymbols | app/market_quotes.py:252-268 | the batches are non-empty, concatenate to the input, have a URL of at most 1800 characters when they hold several symbols, and no order-preserving split with these properties has fewer |
| QuoteBatches.GreedyStaysAhead | app/market_quotes.py:252-268 | after any number of batches the greedy split has covered at least as many symbols as any other |
| QuoteBatches.GreedyIsOptimal | app/market_quotes.py:252-268 | no other split has fewer batches |
| QuoteBatches.PartFits | app/market_quotes.py:252-268 | any non-empty run of a batch that fits also fits |
| QuoteBatches.FitsMeans | app/market_quotes.py:252-268 | a batch fits iff template, symbols and commas have 1800 characters at most |
| QuoteFetch.DedupKeepsOneEach | app/market_quotes.py:155 | deduplication keeps exactly one of each symbol, and a distinct list as it is |
| QuoteFetch.ParseAvailable | app/market_quotes.py:242-249 | the result has exactly the symbols that parse; an unexpected exception of any symbol escapes |
| QuoteFetch.FetchBatch | app/market_quotes.py:199-239 | a batch fails iff it is unreachable, a symbol raises the unexpected, or no symbol parses; otherwise a symbol is missing iff it raised the expected error, and the others are as they parse |
| QuoteFetch.BatchMeans | app/market_quotes.py:199-249 | the same of the specification |
| QuoteFetch.MergedLookup | app/market_quotes.py:183-193 | the union of disjoint results says of a symbol exactly what some result says |
| QuoteFetch.MergeOrderIrrelevant | app/market_quotes.py:183-193 | the union does not depend on the order of the results |
| QuoteFetch.MergedIsOwnBatchOnly | app/market_quotes.py:172-197 | a symbol is answered iff its own batch succeeded with it, and as that batch says: a failed batch loses exactly its own symbols |
| QuoteFetch.NothingMergedIffAllFailed | app/market_quotes.py:194-195 | nothing comes back iff every batch failed |
| QuoteFetch.FetchUncached | app/market_quotes.py:172-197 | the whole fetch: an optimal partition of the symbols, an error iff every batch failed, and otherwise only requested symbols, each answered iff its batch succeeded and it parsed, and as it parsed |
| QuoteCache.SinaQuoteClient.Fetch | app/market_quotes.py:152-170 | the whole new state of a call up to its await: nothing asked, a fresh cache entry, the task under way, or a new task |
| QuoteCache.SinaQuoteClient.Finish | app/market_quotes.py:194-197 | the whole new state when a task ends: only a delivery writes the cache |
| QuoteCache.SinaQuoteClient.RunCallback | app/market_quotes.py:165-169 | the whole new state of a done-callback, which removes its own task only |
| QuoteCache.SinaQuoteClient.Resume | app/market_quotes.py:170 | a waiting caller gets the outcome of the task it awaited |
| QuoteCalls.FetchEffect | app/market_quotes.py:152-170 | a call without symbols starts nothing; any other adds one call for the key of its symbols, each once in order of first occurrence, answered by a fresh entry, else waiting on the task under way, else on a new one |
| QuoteCalls.KeyIsDedup | app/market_quotes.py:155 | that key is unique |
| QuoteCalls.AnswersAreForSymbols | app/market_quotes.py:152-170 | whatever happens later, the caller of given symbols is answered, if at all, for the key of exactly these symbols, by a delivery younger than the TTL or by the outcome of a task |
| QuoteCalls.ResumeEffect | app/market_quotes.py:170 | when a waiting call can resume, and that it then has the outcome of its task |
| QuoteCalls.FinishEffect | app/market_quotes.py:194-197 | a task that ends has its outcome now, and a delivery is the entry of its key |
| QuoteCalls.ResumedIsAnswered | app/market_quotes.py:170 | a resumed call keeps the outcome of the task it waited for at every later moment |
| QuoteCache.StepKeepsInv | app/market_quotes.py:152-197 | every step keeps: the table holds exactly the tasks not yet called back, cache entries are the newest deliveries, fetches of a key are spaced, answers are genuine |
| QuoteCache.ReachableInv | app/market_quotes.py:152-197 | so it holds under every interleaving of fetches, completions, callbacks, cancellations and clock ticks |
| QuoteCache.AtMostOneUpstream | app/market_quotes.py:152-170 | a deduplicated symbol tuple has at most one unfinished task, and it is the one in the table |
| QuoteCache.UpstreamIsSpaced | app/market_quotes.py:157-163 | two fetches of a key never overlap, and one after a delivery starts at least the TTL later |
| QuoteCache.AnswersAreGenuine | app/market_quotes.py:152-170 | a caller gets a delivery younger than the TTL or the outcome of a task, for exactly its own tuple |
| QuoteCache.CallsAreStable | app/market_quotes.py:152-170 | a call keeps its tuple, and its answer once given |
| QuoteCache.OnlyOwnCallbackRemoves | app/market_quotes.py:165-169 | a key leaves the table by the callback of its task and no other step, and that callback always finds its task |
| QuoteCache.RemovedOnce | app/market_quotes.py:165-169 | a task is removed once |
| QuoteCache.FailuresAreNotCached | app/market_quotes.py:194-197 | only a delivery changes the cache, for its own key |
| AttachmentHandlers.Stores.CreateMemo | app/routers/memos.py:109-163 | the run is a trace of the steps; the memo with exactly the new rows and objects, or no memo and no row, and a working clean-up restores the bucket |
| AttachmentHandlers.Stores.UploadAttachments | app/routers/memos.py:200-262 | the run is a trace of the steps; when the upload succeeds; if it does, exactly the new keys are added to rows and bucket; if not, no row is added and a working clean-up restores the bucket |
| AttachmentHandlers.Stores.CreateAttachment | app/routers/trading.py:260-321 | the same for the one file of a trade with fewer than ten |
| AttachmentHandlers.Stores.PutFiles | app/routers/memos.py:226-256 | the upload loop, which ends with all files put, or compensated and idle |
| AttachmentHandlers.Stores.FailPut | app/routers/memos.py:252-256 | a put that fails, stored or not, after which a working clean-up restores the bucket |
| AttachmentHandlers.Stores.RemoveObjects | app/routers/memos.py:291-296 | exactly the objects whose removal takes effect go, up to the first error that is not swallowed; no other key is touched, and without failures all of them go |
| AttachmentHandlers.Stores.DeleteMemo | app/routers/memos.py:265-282 | the run is a trace of the steps; a failed delete changes nothing; a successful one removes exactly the memo's rows and, when no removal fails, exactly their objects |
| AttachmentHandlers.Stores.DeleteAttachment | app/routers/trading.py:361-382 | the same for one attachment of a trade |
| Attachments.StepKeepsInv | app/routers/memos.py:109-282 | every step of every handler, failures and deaths included, but for a misreported commit, keeps each key placed: rows have objects, and what an upload has put is its own until it commits |
| Attachments.ReachableInv | app/routers/trading.py:292-382 | so this holds under every interleaving of the memo and trade handlers |
| Attachments.CommittedRowsHaveObjects | app/routers/memos.py:200-282 | at every step of every interleaving without a misreported commit, each committed row's object is in the bucket |
| Attachments.MisreportedCommitBreaksSafety | app/routers/memos.py:252-256 | after any misreported commit of rows, the first removal that the clean-up makes takes the object of a committed row |
| Orphans.QuiescentBucket | app/routers/memos.py:109-282 | with no request running the bucket is the committed keys and the orphans, so it is exactly the committed keys iff there is no orphan |
| Orphans.StepLeavesOrphanIff | app/routers/memos.py:200-296 | a step makes an orphan iff it is a failed put that stored its object, a failed removal or a death or a failed delete of the last request to have in hand an object still there without a row, or a delete taking a row whose object no request has in hand |
| Orphans.OrphansAreForever | app/routers/memos.py:200-296 | an orphan stays in the bucket without a row ever after |
| Orphans.CleanHistoryLeavesNothing | app/routers/memos.py:109-282 | without those there are no orphans, and an idle system's bucket is exactly the committed keys |
| Orphans.DeleteAndUploadRace | app/routers/memos.py:200-282 | from any state in which a delete has read its rows and an upload is about to commit, both can commit, and every uploaded object is an orphan |
| Orphans.RaceIsReachable | app/routers/memos.py:109-282 | a trace that leads to such a state |
| Attachments.TradeAttachmentsAreLimited | app/routers/trading.py:265-277 | the row lock keeps a trade at ten attachments at most under every interleaving |
| Sessions.SessionStore.CreateSession | app/security.py:73-86 | the whole new state: every session expired at the given time is gone, no other is, and the new one is added |
| Sessions.SessionStore.ReadSession | app/security.py:45-54 | accepted iff the session exists unexpired; a touch is decided iff five minutes have passed |
| Sessions.SessionStore.TouchSession | app/security.py:55-63 | the guarded update writes iff the session is still stale |
| Sessions.TouchesAreBounded | app/security.py:45-64 | a session made for h hours is touched fewer than 12·h times under any interleaving, and its expiry never moves |
| Sessions.WritesAreSpaced | app/security.py:54-63 | a step changes a session only by raising last_seen_at by at least five minutes |
| Sessions.PurgeTakesOnlyExpired | app/security.py:73-86 | a session disappears by its own logout or after it expired, and a purge takes all that have |
| Sessions.OneOfTwoTouches | app/security.py:54-63 | of two requests that decided to touch within five minutes at most one writes |
| Sessions.ReadTouches | app/security.py:45-63 | a request alone on a session idle for 300 seconds leaves last_seen_at at its own reading, on one idle for less it changes nothing |
| Sessions.CreateMeans | app/security.py:73-86 | the new session is seen at once and expires after its hours; every unexpired one stays as it was, every expired one goes |
| Sessions.LogoutMeans | app/routers/auth.py:104-111 | logging out removes the session and no other |
| MigrationRows.SortedIsSorted | app/migration/legacy.py:216-222 | the canonical form is in order and loses no row |
| MigrationRows.ArrangementIsUnique | app/migration/legacy.py:216-222 | a multiset has one arrangement under an injective sort key |
| MigrationRows.CanonicalIffSameRows | app/migration/legacy.py:216-222 | canonical forms are equal iff the projected rows are equal as multisets |
| Integrity.DuplicateKeys | app/migration/legacy.py:225-247 | nothing is reported iff the key is unique, and what is reported occurs twice |
| Integrity.DuplicateTradeSources | app/migration/legacy.py:225-274 | nothing is reported iff trade sources with both parts present are unique |
| Integrity.DuplicatePaths | app/migration/legacy.py:225-274 | nothing is reported iff attachment paths are unique |
| Integrity.ValidateSourceIntegrity | app/migration/legacy.py:225-274 | passes iff every listed key is unique and every best-trade, tag and attachment reference resolves |
| Integrity.IntactMeans | app/migration/legacy.py:225-274 | the conditions column by column: four unique keys, one import place per trade, one path per attachment, and best trades, tags and attachments that refer to existing ids |
| Migration.EqualHashesSameRows | app/migration/legacy.py:447-459 | equal hashes are equal multisets of compared rows |
| Migration.AgreesIffCleared | app/migration/legacy.py:447-459 | after an honest load the comparison succeeds iff no compared table kept old rows |
| Migration.Target.Download | app/migration/legacy.py:369-379 | all payloads by path, iff each can be downloaded at its recorded size |
| Migration.Target.PutAll | app/migration/legacy.py:423-434 | which keys the bucket has after the puts, also when one fails |
| Migration.Target.Load | app/migration/legacy.py:436-445 | a failed load leaves every table; an honest one appends the rows to what was left |
| Migration.Target.HashesAgree | app/migration/legacy.py:447-459 | true iff counts and hashes agree for every table |
| Migration.Target.ObjectsAgree | app/migration/legacy.py:460-468 | true iff every attachment's object is there with the hash of its payload |
| Migration.Target.RemoveStale | app/migration/legacy.py:469-472 | exactly the stale keys go |
| Migration.Target.CopyAndVerify | app/migration/legacy.py:423-477 | success means tables and bucket mirror the source, whatever the stores did; with honest stores it succeeds iff nothing old was left |
| Migration.ReplacementClearsIff | app/migration/legacy.py:447-459 | a replacement leaves nothing old in the compared tables iff the two quant tables were empty |
| Migration.ReplacementFails | app/migration/legacy.py:343-477 | with honest stores, replacing a target that holds one strategy by an empty source fails |
| Migration.MatchesMeans | app/migration/legacy.py:447-459 | the ten compared tables by name |
| Migration.VerifiedRowsNameObjects | app/migration/legacy.py:382-393 | where the object key is compared, every attachment row names an object of the bucket and every object is named by a row |
| Migration.Target.Migrate | app/migration/legacy.py:343-477 | a verified report means an intact source, each table equal to it as a multiset, the bucket's keys exactly the attachment keys, each with the source's bytes and named by the attachment rows; dry runs, refusals and failed downloads write nothing |
| DecimalText.ParseFormat | app/schemas.py:21-37 | reading what format printed gives the number back, with a positive exponent multiplied out |
| DecimalText.ParsesIff | app/schemas.py:29 | a text is read iff it is an optional minus and digits, or a point followed by digits with or without digits before it |
| DecimalText.MatchParses | app/schemas.py:29-33 | and it is the number of its digits with the decimals after the point |
| DecimalText.StripIs | app/schemas.py:28 | stripping takes all white space from both ends and nothing else |
| DecimalText.NormalisedMeans | app/schemas.py:28-33 | any digit is read as the ASCII digit of its value, any other character as it is |
| DecimalText.DecimalStringIsPlain | app/calculations.py:114-120 | no exponent, no trailing fractional zero, no bare point, no extra leading zero |
| DecimalText.DecimalStringRoundTrip | app/calculations.py:114-120 | what is printed reads back as the same value, for every finite decimal |
| DecimalText.DecimalStringNamesValue | app/calculations.py:114-120 | apart from negative zero, two numbers print alike iff they are equal |
| DecimalText.PrintedIsReadable | app/schemas.py:21-37 | the validator accepts a printed number iff its sign rule allows the value, and keeps the value |
| DecimalText.ReadExactly | app/schemas.py:21-37 | a missing value is passed on iff optional; any other is accepted iff it matches the pattern and its value is positive, or zero where zero is allowed, and keeps its value |
| DecimalText.ReadingIsIdempotent | app/schemas.py:21-37 | what the validator returns it accepts again, unchanged, whatever digits and spaces beyond ASCII it first read |

## Left out

- TradeHistory.HistoryIsFaithful: assumes amounts of at most ten decimals, the resolution of the columns, and so do SubmittedListIsFaithful, EditsHeal and RefreshAfterCreate; the code accepts more, for which `Aggregation.HistoryIsAggregated` holds and `HeaderEdits.ElevenDecimalsAreUnfaithful` shows why these do not.
- Aggregation.AggregatedPricesAreNear: the six results of amounts of more than ten decimals have no bound against the stored fills.
- HeaderEdits.ResubmittedHeader: with a submitted rate or risk of more than ten decimals only the bound and the failure beyond one unit are stated, not the iff, for the stored terms then differ too.
- RequestEffects.CreateExecutionEffect: requests run one at a time; concurrent per-fill edits of one trade are not serialised by the code, and nothing is claimed about them.
- Schemas.FaithfulTradeShownIff: of the two reasons only the lengths are modelled, and of a submitted one the length after stripping, where the source measures it before.
- Schemas.ValidateTrade: the other text fields of a trade (symbol, strategy, notes, tags) and their limits are not modelled; no operation on fills touches them.
- QuoteFetch.FetchBatch: reading one symbol out of a response is a parameter (a quote, the expected error, or any other exception); field layouts, dates and character sets are not modelled.
- QuoteBatches.SplitSymbols: the URL template has one placeholder; brace escapes in a template are not modelled.
- QuoteCache.AnswersAreGenuine: the caller's dictionary is a value; that callers share one mutable dictionary with the cache is not captured.
- Attachments.TradeAttachmentsAreLimited: the limit of twelve on a memo has no lock behind it, and nothing is claimed about it under races.
- AttachmentHandlers.Stores.PutFiles: object keys are fresh numbers, as UUIDs are meant to be; a handler run on its own meets every fault of `Attachments` but a death and a commit that takes effect while raising.
- Migration.Target.Migrate: the JSON text, the row hash and the object hash are injective parameters, the column lists are parameters, the bucket listing is complete, and nobody else writes to the target meanwhile.
- Groupings.Tables: the page of at most 500 trades is the input.
- Python's decimal context precision (28 and 40 digits) and the float inside the minutes: arithmetic here is exact.
- Overflow of numeric(30, 10).
- Version checks of memos, rules, reviews, quant rows and market settings, which the code reads before it writes.
- HTTP routing, authentication, image checks, spreadsheet export, search, options and closing of the quote client: they would add easy members.
