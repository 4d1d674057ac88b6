# Phantom filler: verified model of its stateful and arithmetic core

Phantom fills Dutch auction orders across chains. Around its I/O sit small components whose
correctness is subtle: concurrent counters, aggregates that must agree with a history, robust
price aggregation, and integer economics with truncation. This project models those components
in Dafny and proves what they keep over every run.

Check everything with `dafny verify dfyconfig.toml`.

## What is modelled

**Concurrent counters.** `NonceManager` (the class with its maps) and `NonceProtocol` (any number
of tasks, each lock-held region or single map operation one step, with a log of what was
installed, issued and removed); `NoncePending` (how far issued nonces run ahead);
`NonceEpochs` (whole runs with resyncs);
`NonceBaseline` (the confirmed baseline, and that confirming lets callers go on); `Retry`,
`RiskRaces` and `ConfirmationRaces` (each atomic operation or locked region of the check-then-act
calls one step, and the worst case of each race attained: `RiskRaceBound`); `Risk` (the checks, the
counters, and calls that do not overlap); `RiskPositions` and `RiskPositionRaces` (the position limit,
with and without overlap).

**Derived aggregates.** `Pnl` (the tracker's five structures and two totals), `PnlWindow` (the
retained history), `PnlAggregates` and `PnlTokens` (each aggregate against a fold over the
history), `PnlRuns` (all of it over every legal run), `PnlConservation` (totals over all days and
all tokens), `PnlFields` (all of it in terms of the recorded fields alone); `CircuitBreaker`,
`Confirmation`, `OrderBook`.

**Price aggregation.** `PriceMath` (median, mean, outlier test, confidence), `Aggregator` (collect,
filter, publish, cache), `PublishedPrice` (what is published, in terms of the answers).

**Order economics.** `Order` (decay), `Arb` (profit chain), `ArbOutcome` (its answer, in terms of the
one question to the market), `Selection` (registry and pipeline).

`Machine`, `Time`, `Tasks`, `Sorting`, `Sums` and `Results` hold the arithmetic and the small theories the
others share.

Classes mutate the fields the source mutates. Each of their methods is proved equal to a function
of the old state, and the theorems are about that function over sequences of calls. Integer widths
are explicit: atomics and the plain U256 operators wrap, saturating and clamped operations are as
written, signed division truncates toward zero. Clocks, provider answers, quotes and map iteration
order are arguments or arbitrary choices, so a theorem holds for all of them.

## What the proofs found

- The nonce manager's "should never happen" error is reachable: a `reset` between the two regions
  of the slow path (`NoncePending.ResetRacesAssign`).
- "Concurrent callers never receive the same value" is true between two installs of a key's entry.
  Across a `sync_nonce` or a first fetch after a `reset`, order is kept exactly when the new count
  is above everything issued before (`NonceProtocol.IncreasingIffNeverRewinds`), and the values stay
  distinct exactly when the ranges issued from each install do not overlap
  (`NonceEpochs.RunIsDistinctIff`); any nonce can be issued twice (`NonceEpochs.ResyncIssuesTwice`).
- Confirming a nonce of an untracked key leaves a baseline that the first fetch does not replace;
  the pending limit then does not hold (`NoncePending.EarlyConfirmBreaksBound`,
  `NoncePending.SequentialBoundIff`). A limit of 0 still lets the first call through.
- `check_fill` reads two counters separately and `record_fill_complete` writes two separately, so even
  one checking and one completing task can exceed the sequential loss bound by two worst fills
  (`RiskRaceBound.RaceBoundIsReached`).
- The daily counter wraps. A profit past 2^63 wei (9.22 ETH) since the last reset shows as a loss, and
  every check fails from then on (`Risk.ProfitShowsAsLoss`); the true loss keeps its bound all the same
  (`Risk.TrueLossBound`). A bound past 2^63 - 1, which the default limit and slots have as soon as a
  fill can lose 0.52 ETH, is not kept by every run (`Risk.TrueLossBoundIff`).
- Callers that read a position and check at the same time can exceed the position limit by all but one of
  them (`RiskPositionRaces.PositionBoundIsReached`).
- `Dropped` is documented as "not included within the timeout window", but an included transaction
  short of confirmations is dropped too (`ConfirmationRaces.DroppedIsUnseenIff`,
  `ConfirmationRaces.DroppedAfterInclusion`).
- Tasks that track at once can exceed `max_tracked` by all but one of them
  (`ConfirmationRaces.RaceBoundIsReached`); a prune or removal can delete a pending record that was
  tracked anew after the look (`ConfirmationRaces.PendingIsSweptIff`).
- Recording a fill under an id that is still retained loses it from the history or duplicates it
  (`PnlWindow.RecordKeepsWindowIff`); setting a confirmed fill back to pending and confirming it
  again counts its P&L twice (`PnlAggregates.TotalFollowsChangeIff`).
- `get_price` takes the median of an empty list for some answers exactly when `min_sources` is 0 and
  the deviation is below 100 percent (`Aggregator.PanicsIff`), or the median wraps
  (`Aggregator.PanicsOnAnyIff`); with a raw median of 0 the published
  mean is unprotected (`Aggregator.PublishedBandIff`, `Aggregator.ZeroMedianLeavesMeanOpen`); the sum of the two middle prices may wrap, and the
  result is then no median (`PriceMath.MedianSplitsIff`).
- The decay product may wrap as well, and the required output then rises during the decay
  (`Order.OrdinaryDecaysIff`); so may the basis-point product, which then refuses worthwhile fills
  (`Arb.DecisionIsExactIff`).

## Model

| member | source | states |
|---|---|---|
| `NonceProtocol.EpochIsGapFree` | crates/phantom-execution/src/nonce.rs:78-149 | In every interleaving of any number of tasks, the nonces issued for a key since its entry was last installed or removed are, in issue order, exactly the installed value, the next one, and so on up to just below the entry: increasing, no gap, no extra value |
| `NonceProtocol.EpochIsDistinct` | crates/phantom-execution/src/nonce.rs:76-77 | The documented "concurrent callers never receive the same value" holds within an epoch exactly as long as the epoch issues at most 2^64 nonces |
| `NonceProtocol.IncreasingIffNeverRewinds` | crates/phantom-execution/src/nonce.rs:70-77 | Over a whole run with resyncs and resets, later callers get strictly larger nonces if and only if no epoch is opened at or below a nonce already issued |
| `NonceEpochs.RunIsDistinctIff` | crates/phantom-execution/src/nonce.rs:76-77 | Over a whole run with resyncs and resets, the documented "concurrent callers never receive the same value" holds for a key if and only if no epoch issues more than 2^64 nonces and no two epochs' ranges of nonces overlap, wrap-around included |
| `NonceEpochs.ResyncIssuesTwice` | crates/phantom-execution/src/nonce.rs:151-179 | It fails for every nonce: resync, call, resync to the same count, call |
| `NonceProtocol.ReachableConsistent` | crates/phantom-execution/src/nonce.rs:78-149 | In every reachable state the stored entry is the installed value plus the number issued since (mod 2^64), and every nonce ever logged continued its epoch's count |
| `NonceProtocol.StepEffect` | crates/phantom-execution/src/nonce.rs:78-242 | Each lock-held region of any task changes the nonce map by exactly one install, issue or removal, or not at all, and a fast issue implies the pending count was below the limit |
| `NoncePending.OtherKeysUntouched` | crates/phantom-execution/src/nonce.rs:78-242 | A region of a task working on one key changes no entry, baseline or epoch of any other key |
| `NoncePending.ConfirmedOnlyAdvances` | crates/phantom-execution/src/nonce.rs:206-228 | A stored confirmed baseline moves backward only at the end of a resync or of a reset of that key |
| `NonceBaseline.BaselineIsLargest` | crates/phantom-execution/src/nonce.rs:78-242 | Over every run of calls the stored baseline of a key is exactly the largest of what its last resync stored (or a first fetch, if there was no baseline) and one more than each nonce confirmed since the last resync or reset; none is stored if there was none |
| `NonceBaseline.BaselineIsLargestUnderRaces` | crates/phantom-execution/src/nonce.rs:78-242 | The same in every interleaving, counted from the end of the last resync or reset |
| `NonceBaseline.CallAnswers` | crates/phantom-execution/src/nonce.rs:78-149 | An uninterrupted call on a tracked key is issued the entry exactly while it is less than the limit ahead of the baseline, and is told how far ahead otherwise; on an untracked key it gets the fetched count, or the fetch error |
| `NonceBaseline.ConfirmingLetsCallersGoOn` | crates/phantom-execution/src/nonce.rs:203-228 | In any reachable state, confirming the last issued nonce leaves nothing pending, and with a limit of at least 1 the next call is issued the entry |
| `NoncePending.PendingBoundUnderRaces` | crates/phantom-execution/src/nonce.rs:89-143 | While all fetches for a key see the same count, nothing resets it and no confirmation below that count arrives before a baseline is stored, the entry never runs ahead of the baseline by more than the limit plus the number of slow-path calls, in any interleaving |
| `NoncePending.RaceBoundIsReached` | crates/phantom-execution/src/nonce.rs:89-143 | That racing bound is attained for every limit and every number of slow calls, by a run that meets its conditions |
| `NoncePending.SequentialPendingBound` | crates/phantom-execution/src/nonce.rs:89-143 | Without overlap, and with only tracked keys confirmed, the pending count never exceeds max(limit, 1), whatever is resynced, reset or fetched |
| `NoncePending.SequentialBoundIff` | crates/phantom-execution/src/nonce.rs:89-143 | A sequential run stays within max(limit, 1) throughout if and only if every call that opens an epoch meets no baseline far below its fetched count |
| `NoncePending.EarlyConfirmBreaksBound` | crates/phantom-execution/src/nonce.rs:206-228 | A confirmation of an untracked key leaves a baseline behind, and one later first fetch of n makes n nonces pending, beyond the limit |
| `NoncePending.AssignFailsIff` | crates/phantom-execution/src/nonce.rs:127-148 | The error the code says should never happen is returned to a task exactly when the last install or removal of its key since its first slow region is a removal |
| `NoncePending.ResetRacesAssign` | crates/phantom-execution/src/nonce.rs:145-148 | That error is reachable: a reset between the two slow-path regions |
| `NoncePending.UninterruptedCall` | crates/phantom-execution/src/nonce.rs:108-143 | A first call that nothing interrupts is its regions in a row: it installs the fetched count and returns it |
| `NonceManager.Manager.TryFastPath` | crates/phantom-execution/src/nonce.rs:89-106 | The locked region: limit error with the pending count, or issue and increment, or not tracked |
| `NonceManager.Manager.InsertFetched` | crates/phantom-execution/src/nonce.rs:111-125 | The first task to get here installs its count; later ones keep the existing entry |
| `NonceManager.Manager.AssignAfterInsert` | crates/phantom-execution/src/nonce.rs:127-148 | The second slow region: issues and increments, stores a baseline only if there is none, or finds the entry gone |
| `NonceManager.Manager.GetNext` | crates/phantom-execution/src/nonce.rs:78-149 | The whole call with nothing in between, including the fetch error |
| `NonceManager.Manager.SyncNonce` | crates/phantom-execution/src/nonce.rs:155-179 | Overwrites entry and baseline of one key with the fetched count |
| `NonceManager.Manager.ConfirmNonce` | crates/phantom-execution/src/nonce.rs:206-228 | Raises the baseline to nonce + 1 or leaves it; stores one if there is none |
| `NonceManager.Manager.Reset` | crates/phantom-execution/src/nonce.rs:233-242 | Forgets both entries of the key and nothing else |
| `NonceManager.Manager.CountPending` | crates/phantom-execution/src/nonce.rs:193-201 | Entry minus baseline, each 0 if absent, never below 0 |
| `PnlRuns.RunsAgree` | crates/phantom-inventory/src/pnl.rs:185-364 | After any legal run, pruning included: the retained window is exact, the running total is the sum of clamped P&L of the confirmed fills, and every day and every token agrees with the fold over the history |
| `PnlFields.RunsAgreeByField` | crates/phantom-inventory/src/pnl.rs:185-364 | The same in terms of the recorded fields and current statuses alone: a token's sold amount sums amount_in where it is token_in on that chain, its bought amount amount_out where it is token_out, count, half gas and half P&L both; a day is the 86,400 seconds from its midnight; the total sums the P&L cut to 64 bits |
| `PnlFields.TokenByField` | crates/phantom-inventory/src/pnl.rs:245-309 | That form for one token, saturation included |
| `PnlFields.DayByField` | crates/phantom-inventory/src/pnl.rs:214-243 | That form for one day |
| `PnlFields.SameDayIff` | crates/phantom-inventory/src/pnl.rs:214-219 | Two fills share a day exactly when no midnight lies after the earlier and up to the later |
| `PnlAggregates.TotalFollowsChangeIff` | crates/phantom-inventory/src/pnl.rs:332-336 | The running total follows a status change if and only if the change is Pending to anything or a repetition, or does not involve Confirmed, or the fill has no P&L |
| `PnlAggregates.TotalAfterRecord` | crates/phantom-inventory/src/pnl.rs:204-212 | Recording keeps the running total the (wrapped) sum over the fills confirmed now |
| `PnlAggregates.DayAfterRecordMatches` | crates/phantom-inventory/src/pnl.rs:214-243 | Recording keeps each day's gas, counts and realized P&L equal to the folds over that day's fills, saturation included, and other days alone |
| `PnlAggregates.DayAfterUpdateMatches` | crates/phantom-inventory/src/pnl.rs:338-360 | So does confirming or reverting a pending fill |
| `PnlTokens.TokensAfterRecordMatch` | crates/phantom-inventory/src/pnl.rs:245-309 | Recording keeps each token's count, bought, sold, gas and P&L equal to the sums over the legs at that token, also when both legs are the same token |
| `PnlTokens.TokensUnmovedByChange` | crates/phantom-inventory/src/pnl.rs:316-364 | A later confirmation changes neither a token's aggregate nor what it should be |
| `PnlConservation.DaysSumToTotal` | crates/phantom-inventory/src/pnl.rs:185-364 | While nothing clamps or saturates, the realized P&L of all days adds up to the running total |
| `PnlConservation.TokensConserve` | crates/phantom-inventory/src/pnl.rs:245-309 | Over all tokens: counts sum to twice the fills, bought and sold to the amounts out and in, gas to the total gas less one wei per odd-gas fill, and P&L to within one wei per fill of that recorded as confirmed |
| `PnlWindow.RecordKeepsWindowIff` | crates/phantom-inventory/src/pnl.rs:185-276 | The retained fills stay exactly the newest max_fill_history, under distinct ids, if and only if the new id is not one already retained |
| `PnlWindow.PruneShrinksWindow` | crates/phantom-inventory/src/pnl.rs:441-460 | The prune loop, restarting at 0, moves the window's lower end up and removes exactly what fell out |
| `PnlWindow.RetainedIdBreaksWindow` | crates/phantom-inventory/src/pnl.rs:197-202 | A reused retained id is either shadowed or takes the new record out with the old one |
| `PnlWindow.UpdateFinds` | crates/phantom-inventory/src/pnl.rs:316-320 | An update finds a fill exactly when the history has it inside the window, and it is the same record |
| `PnlWindow.UpdateKeepsWindow` | crates/phantom-inventory/src/pnl.rs:316-364 | A status update keeps the window exact with the updated status |
| `PnlWindow.RecentFillsAreNewest` | crates/phantom-inventory/src/pnl.rs:401-417 | recent_fills returns the newest min(limit, retained) records, newest first, with their current status |
| `Pnl.PnlTracker.RecordFill` | crates/phantom-inventory/src/pnl.rs:185-276 | The five structures and two totals change together as the recording function says |
| `Pnl.PnlTracker.UpdateTokenPnl` | crates/phantom-inventory/src/pnl.rs:280-309 | One leg is added to one token's saturating aggregate, P&L only if confirmed |
| `Pnl.PnlTracker.UpdateFillStatus` | crates/phantom-inventory/src/pnl.rs:316-364 | Status, total and day change together; unknown ids and repeated statuses change nothing |
| `Pnl.PnlTracker.PruneIfNeeded` | crates/phantom-inventory/src/pnl.rs:441-460 | Removes the sequence numbers below the limit's lower end, and their fills |
| `Pnl.PnlTracker.RecentFills` | crates/phantom-inventory/src/pnl.rs:401-417 | Collects the retained records backward from the newest sequence number, stopping at the limit |
| `Aggregator.MajorityRobustness` | crates/phantom-pricing/src/aggregator.rs:187-219 | If more than half of the answers lie in [lo, hi], the published median and mean lie within max_deviation_pct of a value in [lo, hi], whatever the others answer up to 2^256 - 1; only the honest prices must be far from 256 bits (nonzero raw median) |
| `PublishedPrice.OutcomeIs` | crates/phantom-pricing/src/aggregator.rs:180-219 | No price exactly if nothing answered or fewer than min_sources are no outliers; what is published counts and names, in order, exactly those, and carries the time stamp |
| `PublishedPrice.PublishedConfidenceIs` | crates/phantom-pricing/src/aggregator.rs:204-216 | The published median and mean are those of the kept prices; the published confidence is ten points a kept source up to five, plus agreement points given by products of their scaled spread and median, less ten exactly when no more than min_sources are kept |
| `PublishedPrice.FullConfidenceIff` | crates/phantom-pricing/src/aggregator.rs:204-216 | 100 is published exactly for five or more kept sources, more than min_sources, whose scaled spread is below their median |
| `PublishedPrice.OutlierIff` | crates/phantom-pricing/src/aggregator.rs:259-270 | A price is an outlier exactly when the median is not zero and a hundred times the distance exceeds the allowed percentage of it (product within 256 bits) |
| `PublishedPrice.MedianIsMiddle` | crates/phantom-pricing/src/aggregator.rs:237-248 | The median is the middle one of the prices in order, or half the wrapping sum of the two |
| `PublishedPrice.MeanIsQuotient` | crates/phantom-pricing/src/aggregator.rs:251-256 | The mean is the wrapping sum divided by the number, rounded down |
| `PublishedPrice.AskAnswers` | crates/phantom-pricing/src/aggregator.rs:128-229 | A price cached no more than the time-to-live away, in whole seconds, is handed out as it is; otherwise the answers decide and what they publish is cached |
| `PublishedPrice.AnsweredFromCacheIff` | crates/phantom-pricing/src/aggregator.rs:128-141 | Over any run a pair is cached exactly if an earlier request cached it, and the last of those answers while it is fresh |
| `Aggregator.PublishedBandIff` | crates/phantom-pricing/src/aggregator.rs:187-219 | When the kept prices add up without wrapping, published median and mean both lie within the configured percentage of the raw median if and only if that is not zero or the mean rounds to zero |
| `Aggregator.KeptIsOrderedSubsequence` | crates/phantom-pricing/src/aggregator.rs:191-202 | The filter keeps exactly the non-outliers, in their order |
| `Aggregator.OddCountKeepsOne` | crates/phantom-pricing/src/aggregator.rs:187-202 | With an odd number of answers at least one always survives the filter |
| `Aggregator.PanicsIff` | crates/phantom-pricing/src/aggregator.rs:197-213 | A configuration lets some answers that do not wrap take the median of an empty list if and only if min_sources is 0 and max_deviation_pct is below 100 |
| `Aggregator.PanicsOnAnyIff` | crates/phantom-pricing/src/aggregator.rs:197-213 | It lets some answers at all, wrapping ones included, do so if and only if min_sources is 0; they are even in number |
| `Aggregator.WrappedMedianPanics` | crates/phantom-pricing/src/aggregator.rs:187-213 | Two equal prices just above 2^255 do so whatever the allowed deviation: their median wraps to 1 |
| `Aggregator.TwoFarSourcesPanic` | crates/phantom-pricing/src/aggregator.rs:197-213 | It happens: two sources far apart filter each other out |
| `Aggregator.PublishIgnoresOrder` | crates/phantom-pricing/src/aggregator.rs:187-233 | What is published, the name list apart, does not depend on the order of the answers |
| `Aggregator.PublishedIsFreshOrCached` | crates/phantom-pricing/src/aggregator.rs:128-141 | Over any run, a price handed out was computed by this request, or by the last request that cached one for the same pair, at most the time-to-live ago |
| `Aggregator.CacheIsLast` | crates/phantom-pricing/src/aggregator.rs:221-228 | The cache holds for each pair what the last request that cached it computed |
| `Aggregator.CollectsAnswersInOrder` | crates/phantom-pricing/src/aggregator.rs:160-178 | The collected prices are, in order, those of exactly the sources that answered |
| `Aggregator.PriceAggregator.CollectPrices` | crates/phantom-pricing/src/aggregator.rs:160-185 | Collects the answers in order, skipping sources without one |
| `Aggregator.PriceAggregator.GetPrice` | crates/phantom-pricing/src/aggregator.rs:116-234 | Cache hit, collect, filter, publish, cache, with each error exit |
| `PriceMath.MedianSplitsIff` | crates/phantom-pricing/src/aggregator.rs:237-248 | At least half the prices lie on each side of the median if and only if the sum of the two middle ones does not wrap |
| `PriceMath.MedianIgnoresOrder` | crates/phantom-pricing/src/aggregator.rs:237-248 | The median depends on the multiset of prices only |
| `PriceMath.MajorityHoldsMedian` | crates/phantom-pricing/src/aggregator.rs:237-248 | A strict majority inside an interval holds the median there |
| `PriceMath.MeanBetween` | crates/phantom-pricing/src/aggregator.rs:251-256 | Without wrap-around the rounded mean lies between any bounds on all prices |
| `PriceMath.MeanIgnoresOrder` | crates/phantom-pricing/src/aggregator.rs:251-256 | The mean depends on the multiset of prices only, wrap-around included |
| `PriceMath.ConfidenceFallsWithSpread` | crates/phantom-pricing/src/aggregator.rs:276-313 | The score is at most 100, and for equal counts and medians a wider spread whose hundredfold fits 256 bits never scores higher |
| `PriceMath.ConfidenceFallsUpToIff` | crates/phantom-pricing/src/aggregator.rs:276-313 | For all lists of a median, the score falls with the spread up to a given one if and only if a hundred times that fits 256 bits |
| `PriceMath.ConfidenceEnds` | crates/phantom-pricing/src/aggregator.rs:276-313 | Full score exactly for five or more sources, above the minimum, within one percent of the median; a spread of a fifth of the median leaves only the source points less the penalty; both of the spread as the code scales it, wrapping or not |
| `PriceMath.FullScoreIsDueIff` | crates/phantom-pricing/src/aggregator.rs:276-313 | The full score is given exactly when the true spread earns it if and only if a hundred times it fits 256 bits, or the source count or the wrapped value rules the full score out |
| `PriceMath.ConfidenceIgnoresOrder` | crates/phantom-pricing/src/aggregator.rs:276-313 | The score depends on the multiset of prices only |
| `Arb.FillingImproves` | crates/phantom-strategy/src/arb.rs:98-207 | A decaying order worth filling at t is worth filling at every later t' up to its deadline, for no less profit and no less confidence, under a monotone quoter, fixed gas and an exact basis-point check |
| `ArbOutcome.FillsExactlyIf` | crates/phantom-strategy/src/arb.rs:98-190 | The market is asked for the amount that the first output requires now, and its error is passed on; at its cost the order is filled exactly when the spelled-out limits are met, where the basis-point check is exact, and only then in any case |
| `ArbOutcome.DecisionSays` | crates/phantom-strategy/src/arb.rs:160-207 | A decision names the order, its gas is the limit times base plus priority fee, its profit what is left of the input after cost and gas (all accounted for with a positive floor), and its confidence the tier of these two |
| `ArbOutcome.OneQuestionDecides` | crates/phantom-strategy/src/arb.rs:98-207 | Quoters that agree on that one question lead to the same result |
| `ArbOutcome.SkipsExpired` | crates/phantom-strategy/src/arb.rs:103-117 | An expired order, or one without outputs, is skipped |
| `Arb.DecisionIsExactIff` | crates/phantom-strategy/src/arb.rs:133-190 | For all market costs, the code takes exactly the fills that meet the configured limits in exact arithmetic if and only if ten thousand times the profit wraps harmlessly between the least and the largest profit |
| `Arb.OrdinaryAmountsAreExact` | crates/phantom-strategy/src/arb.rs:177-190 | That holds wherever ten thousand times the input fits 256 bits |
| `Arb.CheaperIsBetter` | crates/phantom-strategy/src/arb.rs:133-207 | Where that check is exact, a lower market cost never turns a fill down nor lowers profit or confidence |
| `Arb.ConfidenceTiers` | crates/phantom-strategy/src/arb.rs:215-239 | Each confidence tier is reached exactly when the net profit is at least that multiple of the gas cost |
| `Arb.ProfitIsExactIff` | crates/phantom-strategy/src/arb.rs:133-175 | Profit, gas and market cost add up to the input exactly when gas does not exceed the gross profit, always so with a positive profit floor; the gas product never wraps |
| `Arb.DecisionMeetsThresholds` | crates/phantom-strategy/src/arb.rs:98-207 | Every decision is unexpired and meets profit, gas and basis-point limits in exact arithmetic, wrapping or not |
| `Order.DecayIsMonotoneIff` | crates/phantom-common/src/types/order.rs:113-136 | For every order, the required amount never rises with time if and only if it starts no lower than it ends and the interpolation product fits 256 bits up to the last whole second, or wraps without effect; it hits both endpoints and stays between them |
| `Order.OrdinaryDecaysIff` | crates/phantom-common/src/types/order.rs:131-135 | Unless the difference is within the length of the decay of 2^256, the amount never rises if and only if the product of difference and last whole second fits 256 bits |
| `Order.AmountOutsideDecay` | crates/phantom-common/src/types/order.rs:113-130 | The start amount up to the start of the decay, the end amount from its end on and throughout a decay of less than a second; none for an output that does not exist |
| `Order.DecayFollowsLineIff` | crates/phantom-common/src/types/order.rs:131-135 | During the decay it lies on or less than one unit above the exact line through the whole seconds if and only if the product of that second does not wrap |
| `Selection.ActiveIsSortedPermutation` | crates/phantom-strategy/src/registry.rs:69-78 | The active strategies are the enabled ones, once each, in priority order; cutting the list leaves out none of strictly higher priority |
| `Selection.SelectBestIsLastMaximum` | crates/phantom-strategy/src/pipeline.rs:171-188 | None exactly when no decision passes both thresholds, otherwise the last of the highest-scoring passing ones |
| `Selection.ScoreOrdersProducts` | crates/phantom-strategy/src/pipeline.rs:180-188 | A strictly larger score means a strictly larger true profit times confidence, truncation and saturation notwithstanding, with a converse for differences of 100 |
| `Selection.EvaluateOrderIsOptimal` | crates/phantom-strategy/src/pipeline.rs:75-188 | End to end: a fill is chosen exactly when an evaluated strategy recommends a passing one, and none evaluated beats it by 100 in the true product unless that product saturates |
| `Selection.ConsultsTheFirst` | crates/phantom-strategy/src/pipeline.rs:118-137 | Exactly the first min(limit, n) active strategies are consulted, each once and in order |
| `Selection.OthersDoNotMatter` | crates/phantom-strategy/src/pipeline.rs:118-137 | What the others would say changes nothing |
| `Selection.NoHigherPriorityLeftOut` | crates/phantom-strategy/src/pipeline.rs:75-137 | No enabled strategy has a higher priority than a consulted one without being consulted |
| `Selection.ScoreIs` | crates/phantom-strategy/src/pipeline.rs:171-188 | A decision passes with at least both thresholds; its score is a hundredth, rounded down, of the saturated product |
| `Selection.DecisionsInOrder` | crates/phantom-strategy/src/pipeline.rs:138-167 | The decisions collected are, in order, those of exactly the strategies that recommend one |
| `Selection.CollectDecisions` | crates/phantom-strategy/src/pipeline.rs:138-167 | The loop keeps exactly the recommended fills, in order |
| `Selection.Registry.Register` | crates/phantom-strategy/src/registry.rs:33-44 | Stores the strategy enabled under its name, replacing a namesake |
| `Selection.Registry.Unregister` | crates/phantom-strategy/src/registry.rs:47-55 | Removes the name and reports whether it was there |
| `Selection.Registry.SetEnabled` | crates/phantom-strategy/src/registry.rs:98-119 | Switches one entry on or off and reports whether it was there |
| `Selection.Registry.ActiveStrategies` | crates/phantom-strategy/src/registry.rs:69-78 | Collects the enabled entries and sorts them stably by priority |
| `Sorting.StableSortIsUnique` | crates/phantom-strategy/src/registry.rs:76-77 | Whatever is sorted by key and keeps equal keys in order is that result |
| `Risk.TrueLossBound` | crates/phantom-inventory/src/risk.rs:118-264 | When calls do not overlap and each start directly follows its passed check, the true daily loss plus pending fills times the worst loss never exceeds the limit plus one worst loss per pending slot, over every run of fills, completions and resets, whether the counter wraps or not, where that bound is at most 2^63 - 1 |
| `Risk.TrueLossBoundIff` | crates/phantom-inventory/src/risk.rs:118-264 | Over all runs it does so exactly when that bound is at most 2^63 - 1 |
| `Risk.ShownLossBoundIff` | crates/phantom-inventory/src/risk.rs:225-249 | The loss that daily_loss_wei shows keeps the same bound after every call of a run if and only if no completion takes the counter below -2^63 and round to a loss beyond it |
| `Risk.OrdinaryGainsIff` | crates/phantom-inventory/src/risk.rs:225-249 | While no fill gains more than 2^63 - 1 less the bound: if and only if no completion takes the counter below -2^63 |
| `Risk.ProfitShowsAsLoss` | crates/phantom-inventory/src/risk.rs:225-249 | Two profitable fills show as a loss of 2^63 - 1, and every later check fails |
| `RiskPositions.CheckSays` | crates/phantom-inventory/src/risk.rs:110-213 | A disabled manager passes everything; an enabled one fails a check exactly when one of the four limits is broken, and says the first broken one in the documented order |
| `RiskPositions.PositionsHold` | crates/phantom-inventory/src/risk.rs:132-171 | When calls do not overlap and each check is given its token's position (the sum of its started fills), every started fill is within the single-fill limit and no position ever exceeds the position limit |
| `RiskPositions.PositionLimitHoldsIff` | crates/phantom-inventory/src/risk.rs:150-171 | Over all runs it does so exactly unless the limit is 2^256 - 1, which the saturating sum never exceeds, and fills are possible |
| `RiskPositionRaces.PositionUnderRaces` | crates/phantom-inventory/src/risk.rs:118-220 | With N tasks checking in any interleaving of position read, loss load, pending load and start, a position exceeds its limit by at most N - 1 fills of the largest value that fits |
| `RiskPositionRaces.PositionBoundIsReached` | crates/phantom-inventory/src/risk.rs:118-220 | That overrun is attained for every number of tasks and all limits that allow any fill |
| `RiskRaces.LossUnderRaces` | crates/phantom-inventory/src/risk.rs:118-239 | With N checking and M completing tasks in any interleaving of their atomic operations (two loads and a start; pending count and P&L of a completion), the same sum of the true loss and of pending and half-completed fills stays within the limit plus (max_pending + 2N + M - 1) worst losses, where that is at most 2^63 - 1, at every point of every run, wrapping or not; the counter is the true net loss exactly while that is not below -2^63 |
| `RiskRaces.UninterruptedFill` | crates/phantom-inventory/src/risk.rs:118-220 | A check and start that nothing interrupts do what they do without overlap |
| `RiskRaces.UninterruptedCompletion` | crates/phantom-inventory/src/risk.rs:225-265 | So do a completion and a reset |
| `RiskRaces.ShownLossUnderRacesIff` | crates/phantom-inventory/src/risk.rs:118-249 | The loss shown stays within that bound, whatever it is, throughout an interleaving in which no booking takes the counter below -2^63, and, while no fill gains more than 2^63 - 1 less the bound, only then |
| `RiskRaceBound.RaceBoundIsReached` | crates/phantom-inventory/src/risk.rs:118-239 | That bound is the true loss of some run, for all numbers of tasks, limits, slots and worst losses that the counters can hold, even if no fill gains |
| `Risk.Manager.CheckFill` | crates/phantom-inventory/src/risk.rs:118-213 | The five outcomes in the code's order of precedence |
| `Risk.Manager.RecordFillStart` | crates/phantom-inventory/src/risk.rs:216-220 | One more pending fill |
| `Risk.Manager.RecordFillComplete` | crates/phantom-inventory/src/risk.rs:225-239 | One pending fill less, and the P&L subtracted from the loss counter |
| `Risk.Manager.ResetDaily` | crates/phantom-inventory/src/risk.rs:262-265 | Zeroes the loss counter and leaves pending fills alone |
| `CircuitBreaker.RunImplements` | crates/phantom-metrics/src/health.rs:277-408 | After every history with a nondecreasing clock the four stored fields implement a two-phase machine with no stored half-open state |
| `CircuitBreaker.RefusesExactlyInWindow` | crates/phantom-metrics/src/health.rs:283-289 | Requests are refused throughout, and never beyond, the timeout window of the latest trip |
| `CircuitBreaker.ClosedCountsTrailingFailures` | crates/phantom-metrics/src/health.rs:318-328 | A closed circuit's counter is the number of failures since the last success or reset, below the threshold |
| `CircuitBreaker.TrippedByFailure` | crates/phantom-metrics/src/health.rs:318-338 | A tripped circuit was tripped by a failure since which nothing reset it and later failures fell inside the window without moving it |
| `CircuitBreaker.ClosesOnlyAfterSuccesses` | crates/phantom-metrics/src/health.rs:292-315 | It closes only by a reset or after success_threshold successes past the window that no failure interrupts |
| `CircuitBreaker.ClosesExactlyAfterSuccesses` | crates/phantom-metrics/src/health.rs:292-315 | It closes exactly on a reset, or on a success past the window that brings the successes since then to success_threshold |
| `CircuitBreaker.TripsExactlyAtThreshold` | crates/phantom-metrics/src/health.rs:321-328 | A closed circuit trips exactly on the failure that completes the threshold |
| `CircuitBreaker.LookingChangesNothing` | crates/phantom-metrics/src/health.rs:277-289 | state and is_allowed store transitions, yet dropping any calls of them from the history changes no later answer of either |
| `CircuitBreaker.Breaker.State` | crates/phantom-metrics/src/health.rs:277-280 | Half-opens an open circuit whose timeout has passed |
| `CircuitBreaker.Breaker.IsAllowed` | crates/phantom-metrics/src/health.rs:283-289 | Answers after that transition |
| `CircuitBreaker.Breaker.RecordSuccess` | crates/phantom-metrics/src/health.rs:292-315 | Clears the streak, or counts toward closing, or is ignored while open |
| `CircuitBreaker.Breaker.RecordFailure` | crates/phantom-metrics/src/health.rs:318-338 | Counts toward tripping, or re-trips at the second clock reading, or only counts while open |
| `CircuitBreaker.Breaker.Trip` | crates/phantom-metrics/src/health.rs:365-377 | Opens the circuit at the clock reading |
| `CircuitBreaker.Breaker.Reset` | crates/phantom-metrics/src/health.rs:351-357 | Back to the initial fields |
| `ConfirmationRaces.RecordsUnderRaces` | crates/phantom-settlement/src/confirmation.rs:122-323 | With N tasks tracking, in any interleaving of the regions and over any answers and errors: at most max_tracked + N - 1 records; Confirmed ones have a block, success and enough confirmations, Reverted ones a failed receipt, Included ones too few confirmations |
| `ConfirmationRaces.RaceBoundIsReached` | crates/phantom-settlement/src/confirmation.rs:128-151 | That number of records is attained for every limit and number of tasks |
| `Confirmation.RunsAreSound` | crates/phantom-settlement/src/confirmation.rs:122-323 | When calls do not overlap, at most max_tracked records, with the same guarantees per status |
| `ConfirmationRaces.UninterruptedCall` | crates/phantom-settlement/src/confirmation.rs:122-323 | A call that nothing interrupts is its regions in a row, so runs of whole calls are among the interleavings |
| `ConfirmationRaces.SweepsOnlyFinalUnlessRetracked` | crates/phantom-settlement/src/confirmation.rs:294-323 | A removal deletes a record that is not final only if its hash was tracked anew since the look |
| `ConfirmationRaces.PendingIsSweptIff` | crates/phantom-settlement/src/confirmation.rs:294-323 | With two tasks tracking, a pending record can be deleted that way if and only if anything can be tracked at all |
| `ConfirmationRaces.StatusMovesForward` | crates/phantom-settlement/src/confirmation.rs:167-265 | Whatever other calls do, a record's status only moves forward and a final record does not change at all, until its hash is tracked anew or a removal of it is carried out |
| `Confirmation.PruneConserves` | crates/phantom-settlement/src/confirmation.rs:305-323 | Pruning leaves no final record, pruning again changes nothing, and the number removed plus the number left is the number there was |
| `Confirmation.AlwaysFinalIff` | crates/phantom-settlement/src/confirmation.rs:173-194 | A check ends a record whatever the provider answers if and only if it was final or its elapsed milliseconds, modulo 2^64, exceed the timeout |
| `Confirmation.ReceiptDecides` | crates/phantom-settlement/src/confirmation.rs:196-263 | A check in time stores the receipt's data and ends Reverted on failure, Confirmed exactly when the current block is at least the receipt's plus required_confirmations (or none are required), Included otherwise; an unknown current block leaves the status |
| `Confirmation.NoReceiptKeeps` | crates/phantom-settlement/src/confirmation.rs:196-212 | Without a receipt the record keeps its status and data |
| `Confirmation.DroppedExactlyWhenLate` | crates/phantom-settlement/src/confirmation.rs:181-194 | A transaction just tracked is dropped by a later check exactly when that is more than timeout_ms later |
| `ConfirmationRaces.DroppedIsUnseenIff` | crates/phantom-settlement/src/confirmation.rs:50-51 | Over any run since it was tracked, a dropped record was never included, as documented, if and only if no check of it made in time got a receipt |
| `ConfirmationRaces.DroppedAfterInclusion` | crates/phantom-settlement/src/confirmation.rs:181-194 | Under every configuration that can track and asks for confirmations, a record seen in any block can end dropped |
| `Confirmation.Monitor.HasRoom` | crates/phantom-settlement/src/confirmation.rs:128-133 | The first region of tracking: room exactly below the limit |
| `Confirmation.Monitor.InsertPending` | crates/phantom-settlement/src/confirmation.rs:135-151 | The second: stores a fresh pending record without looking again |
| `Confirmation.Monitor.TrackTransaction` | crates/phantom-settlement/src/confirmation.rs:122-160 | Both with nothing in between: refuses at the limit, otherwise stores a fresh pending record |
| `Confirmation.Monitor.CheckStatus` | crates/phantom-settlement/src/confirmation.rs:167-265 | One check: each early return, each error, and what it leaves in the record |
| `Confirmation.Monitor.SeesFinal` | crates/phantom-settlement/src/confirmation.rs:295-296 | The first region of removal: whether the record is there and final |
| `Confirmation.Monitor.RemoveRecord` | crates/phantom-settlement/src/confirmation.rs:298 | The second: removes and returns whatever is there |
| `Confirmation.Monitor.RemoveFinalized` | crates/phantom-settlement/src/confirmation.rs:294-302 | Both with nothing in between: removes and returns the record only if it is final |
| `Confirmation.Monitor.PruneFinalized` | crates/phantom-settlement/src/confirmation.rs:305-323 | With nothing in between: removes all final records and returns their number |
| `Retry.BudgetUnderRaces` | crates/phantom-settlement/src/retry.rs:266-294 | With N tasks whose acquire is a load and a later add, active retries never exceed budget + N - 1 in any interleaving |
| `Retry.RaceBoundIsReached` | crates/phantom-settlement/src/retry.rs:266-279 | That bound is attained by N tasks, for every N and every positive budget |
| `Retry.AtomicAcquiresKeepBudget` | crates/phantom-settlement/src/retry.rs:266-294 | Uninterrupted acquires never exceed the budget |
| `Retry.UninterruptedAcquire` | crates/phantom-settlement/src/retry.rs:266-294 | An acquire that nothing interrupts takes a slot exactly when one is free; a release gives one back, never below zero |
| `Retry.DelayBacksOff` | crates/phantom-settlement/src/retry.rs:302-308 | With a multiplier of at least 1 the delay starts at the initial delay, is capped, and never shrinks for the first 2^31 attempts; from then on the exponent is negative and it never exceeds the initial one |
| `Retry.DelayMultiplies` | crates/phantom-settlement/src/retry.rs:302-308 | Below the cap each of the first 2^31 delays is the multiplier times the one before, up to truncation |
| `Retry.EvaluationIs` | crates/phantom-settlement/src/retry.rs:191-259 | One evaluation retries exactly if the failure is not permanent and attempts and budget are left, with that attempt's delay, and reports its inputs |
| `Retry.RetriesAreBounded` | crates/phantom-settlement/src/retry.rs:191-259 | Over any sequence of failures and loads, an order is retried exactly as long as the failure is retryable and attempts and budget are left; so at most max_retries times, with delays that never exceed the cap and do not shrink for the first 2^31 attempts |
| `Retry.Manager.AcquireSlot` | crates/phantom-settlement/src/retry.rs:266-280 | Takes a slot exactly when one is free |
| `Retry.Manager.ReleaseSlot` | crates/phantom-settlement/src/retry.rs:285-294 | Gives one back, never below zero |
| `OrderBook.RunFollowsLifecycle` | crates/phantom-discovery/src/orderbook.rs:44-182 | Until removed, an order keeps its data and follows Pending to Active to Filled, Expired or Cancelled (or Pending to Cancelled); a terminal entry never changes |
| `OrderBook.PendingNeverExpires` | crates/phantom-discovery/src/orderbook.rs:125-137 | Without an activation no clean-up or expiry touches a pending order, however late |
| `OrderBook.CleanupsCompose` | crates/phantom-discovery/src/orderbook.rs:125-137 | An early clean-up followed by a later one leaves every status as the later one alone would, and the counts add up |
| `OrderBook.CleanupExpiresExactlyOverdue` | crates/phantom-discovery/src/orderbook.rs:125-137 | After a clean-up no active order is past its deadline, and exactly the overdue ones moved |
| `OrderBook.CleanupGoesByDeadline` | crates/phantom-discovery/src/orderbook.rs:125-137 | A clean-up expires exactly the active orders whose deadline is past and leaves every other entry as it was |
| `OrderBook.TransitionMoves` | crates/phantom-discovery/src/orderbook.rs:74-106 | Activating, filling, expiring or cancelling gives the order that status exactly when it is in one that leads there, and otherwise changes nothing; no other order moves |
| `OrderBook.StatusesPartition` | crates/phantom-discovery/src/orderbook.rs:114-121 | The status classes are disjoint and their sizes add up to the book |
| `OrderBook.Book.Insert` | crates/phantom-discovery/src/orderbook.rs:44-61 | Refuses a known id, otherwise stores a pending entry |
| `OrderBook.Book.Remove` | crates/phantom-discovery/src/orderbook.rs:69-71 | Removes and returns the entry |
| `OrderBook.Book.Transition` | crates/phantom-discovery/src/orderbook.rs:161-182 | Moves the status only from the expected one, with the code's two errors otherwise |
| `OrderBook.Book.Activate` | crates/phantom-discovery/src/orderbook.rs:74-76 | Pending to Active |
| `OrderBook.Book.MarkFilled` | crates/phantom-discovery/src/orderbook.rs:79-81 | Active to Filled |
| `OrderBook.Book.MarkExpired` | crates/phantom-discovery/src/orderbook.rs:84-86 | Active to Expired |
| `OrderBook.Book.MarkCancelled` | crates/phantom-discovery/src/orderbook.rs:89-106 | Pending or Active to Cancelled |
| `OrderBook.Book.CleanupExpired` | crates/phantom-discovery/src/orderbook.rs:125-137 | Expires exactly the overdue entries, in any order, and returns their number |

## Left out

- `phantom-api`, the binary, configuration parsing, logging, metrics export, benches: plumbing.
- `phantom-chain`, price sources, simulation, relay, wallet, ABI code: their answers are arbitrary inputs here.
- `gas.rs`, `builder.rs`, `balance.rs`, `HealthRegistry`, token and chain tables: single-map or one-branch claims.
- The Solidity contracts: access control and one write-once map; the reactor itself is elsewhere.
- Getters, `list`, `summary` and configuration defaults of the modelled types: they only read a field.
- `classify_revert`: the reason is an input; what remains of it is whether it is retryable.
- Retry.DelayBacksOff: floating-point rounding is not modelled; the multiplier is a real number.
- Retry.RetriesAreBounded: the same.
- Interleavings inside `CircuitBreaker`, `PnlTracker`, `OrderBook`, `StrategyRegistry`, `PriceAggregator::get_price`, `NonceManager::pending_count` and `RetryManager::evaluate_retry`: their methods are single steps here; their several loads and stores are not protected by one lock. Only the nonce calls, the retry slots, the risk checks and the confirmation monitor are taken apart.
- The count that `track_transaction` compares is one read here; the map adds up its shards one after the other.
- Scheduling and timeouts of `join_all`: a source or strategy answers, fails or is absent.
- Error message texts: errors carry their kind and, where the code reports it, the pending count or the status.
- Timestamps the calendar library cannot represent, for which the P&L tracker uses the current date, and the formatted date string of a day.
- Sequence numbers and fill counts at 2^64 fills: `PnlRuns.RunsAgree` is about runs of fewer events.
- The standard library's sort is the stable insertion sort of `Sorting`; a stable sort by key has only one result (`Sorting.StableSortIsUnique`).
- NoncePending.PendingBoundUnderRaces: confirmations below the fetched count are excluded while there is no baseline, since they become one (`NoncePending.EarlyConfirmBreaksBound` shows the effect).
- RiskPositions.PositionsHold: positions only grow here, by the fills started; how a caller reduces one is not part of this model.
- RiskPositionRaces.PositionUnderRaces: a position limit of 2^256 - 1 is excluded, as `RiskPositions.PositionLimitHoldsIff` explains.
- PublishedPrice.OutlierIff: stated where the threshold product fits 256 bits.
- Retry.DelayMultiplies: floating-point rounding is not modelled.
- Risk.TrueLossBound: a completion without a start, which the code would let wrap the pending counter, is excluded; so it is from every statement about runs in `Risk` and `RiskRaces`.
- RiskRaces.LossUnderRaces: bounds past 2^63 - 1 are excluded; `Risk.TrueLossBoundIff` shows, without overlap, what happens there.
- RiskRaces.ShownLossUnderRacesIff: past the gain it names, a wrapped counter may show a loss within the bound; `Risk.ShownLossBoundIff` tells when, without overlap.
- PriceMath.ConfidenceFallsWithSpread: stated where the spread times 100 fits 256 bits; `PriceMath.ConfidenceFallsUpToIff` shows that it fails beyond.
- PriceMath.ConfidenceFallsUpToIff: medians below 4 and within 36 of 2^256, for which the first wrapped score is no higher, are excluded.
- Order.DecayIsMonotoneIff: about decays of at most 2^64 - 1 seconds, the width in which the code counts them.
- PnlConservation.TokensConserve: stated where no token's aggregate saturates; `PnlTokens.TokensAfterRecordMatch` covers saturation per token.
