# Aerogram: a verified model of the decision engine

Aerogram compares carriers, orders shipments in bulk, and afterwards checks what the carriers charged and how
they performed. This project models the parts of its backend (and two helpers of its cabinet) that hold state,
exact arithmetic or aggregation, and proves what they promise, for all inputs and all runs. It verifies with
`dafny verify dfyconfig.toml`.

| files | component |
|---|---|
| `Options`, `Collections`, `Rounding`, `Sorting` | shared: absent values, list and set sizes, the two rounding modes, the stable sort |
| `CarrierScore`, `ScoreInputs`, `PlatformPool`, `ScoreService`, `ScoreLaws` | Carrier Score: counters, rounded rates, smoothing toward a cross-tenant baseline, points, and the tables they are written to |
| `Ranking`, `RankTradeOff`, `CarrierPoll`, `QuoteReuse`, `SavedAnswers`, `RepeatOrder`, `AnswerLaws` | rate shopping: in-place ranking, concurrent polling under a deadline, policy split, saved answers, their reuse and what a repeat shows |
| `BulkRows`, `BulkRuns`, `BulkLaws` | bulk runs: three mutating passes over rows, keyed services behind them, crashes between, and the button that drives them |
| `Documents`, `DocumentLaws`, `DocumentSweeps`, `LabelLists`, `DocumentRuns` | printed forms: a table that can roll back beside a storage that cannot |
| `CircuitBreaker`, `BreakerRuns` | the breaker and the retry loop, alone and shared by interleaved requests |
| `Terminals`, `TerminalRuns`, `CityMatching`, `CityMappings`, `RefSync`, `SyncLaws` | directories: export synchronisation, the match ladder, frozen mappings, all carriers of a tenant in one transaction |
| `AddressBook`, `AddressLaws`, `AddressBookRuns` | the address book under arbitrary call sequences |
| `Billing`, `BillingLaws`, `BillingPages` | reconciliation of promised and charged prices |
| `CsvReader`, `RecipientImport`, `ImportAccount`, `ImportMatching`, `ImportLaws` | reading a list of recipients, quotation marks included, up to the rows of a run |

Objects that the source mutates are classes; each of their methods is proved equal to a function of the old
state, and the theorems are about that function. Code that only computes is functions and lemmas. Protocols are
state machines over their transactions, with the transactions that are lost half way as steps of their own. What one
call means is said a second time, without those functions, by the fields before and after it (the files named `Laws`).

## What the proofs found

The model follows the code. Where the code does not do what its own comments say, there is a theorem for it.

- A pending sweep that meets a storage failure raises out of its loop and rolls back every row it had already
  handled, while files already written stay. It gives up "exactly min(50, overdue)" if and only if it commits or
  nothing is overdue (`DocumentSweeps.SweepGivesUpTheOverdue`), and nothing in it raises if and only if no document
  of the batch that is not overdue has a missing shipment or a form whose file the storage refuses
  (`DocumentSweeps.SweepIsQuietIff`; an input that fails: `DocumentSweeps.StuckSweepGivesUpNothing`). A sweep facing
  50 overdue documents cannot raise at all.
- A list of labels is one transaction: a storage failure undoes every label of the list, and the next press orders
  them from the carrier again. The second press asks no carrier if and only if the first one committed or its list
  asked none either (`LabelLists.SecondPressIsFreeIff`; an input that fails: `LabelLists.RaisedPressIsRepeated`).
- A ready document keeps its file in every step except a deletion that is not recorded: an expiry that is lost,
  or a storage that deletes and then reports a failure (`DocumentRuns.ReadyHaveFilesIff` gives the exact condition).
- Half-open is not "one trial call": when the cooldown is over the breaker forgets everything and lets every
  request through, and a failed trial opens it again only if the threshold is one (`BreakerRuns.TrialCallIsNotAlone`).
- Confirming a city by hand over a mapping a machine guessed leaves it unconfirmed, and the next export may take it
  away (`CityMappings.ConfirmingConfirmsIff`, `CityMappings.UnconfirmedChoiceIsOverwritten`).
- A complete but empty terminal export switches the whole network off, against the adapters' contract
  (`TerminalRuns.EmptyExportKeepsTheNetworkIff`); a new code exported twice, or a terminal that its columns do not
  take, makes the whole synchronisation fail (`Terminals.TerminalTable.Sync`).
- "A failure of one carrier does not cancel the others" does not hold for what the database refuses: all carriers of
  a tenant are written in one transaction, which is accepted if and only if every city and what is finally said of
  every terminal fits, and no new terminal comes twice in all its exports (`RefSync.TenantSyncCommitsIff`). Two
  accounts of one carrier that see the same new terminal undo the whole synchronisation, every time
  (`RefSync.TwoAccountsUndoEverything`), and so does one warehouse with a limit of ten thousand tons
  (`RefSync.OneUnfitTerminalUndoesEverything`, `RefSync.HeavyWarehouseUndoesEverything`).
- A terminal that comes back in the export of one account and is missing in the complete export of the next stays
  off since when it was, and is not counted (`RefSync.ReturnedTerminalStaysOff`). One that the table did not know stays
  on (`SyncLaws.WhatANewTerminalSays`; for known ones `SyncLaws.WhatAKnownTerminalSays` says who decides).
- A baseline that is written again keeps its first time of calculation, so it can stay behind a row of another formula
  version; `ScoreService.SavedPoolIsLoadedIff` says exactly when a saved pool is the one that is loaded.
- No line of a list is to be dropped in silence, and errors are to carry the number of the line in the editor. In a
  table the numbers are those of the lines if and only if no line but the last leaves a quotation open
  (`ImportAccount.NumbersAreLinesIff`). A stray quotation mark takes all later lines into one cell, without a row, an
  error or a number for any of them (`ImportAccount.StrayQuoteDropsTheRest`, `ImportAccount.StrayQuoteLosesB`).
- One bad cell is to cost its own line. A number that reads as a NaN, or a cell beyond the reader's limit, fails the
  whole list (`ImportAccount.ReadingRaisesIff`, `ImportAccount.NanLosesTheList`). One step later so do an infinite
  weight, an infinite declared value or one of more than 28 digits, and on a line without a key a cell longer than the
  address schema takes (`ImportMatching.RefusedIff`, `ImportMatching.OneCellFailsTheList`).
- A key that finds several counterparties offers nothing to choose from, so such a row can never become ready
  (`ImportMatching.SomeChoiceMakesReadyIff` gives the exact condition).
- The reconciliation list is ordered by creation time alone: its pages hold the same shipments every time if and only
  if no two different matching shipments of one moment lie on different pages (`BillingPages.PagesAreStableIff`).
- A repeated answer is promised to equal the fresh one. Its offers do, but refusals and failures are sorted by the
  carrier's code alone, and are shown alike if and only if no two of one code are shown differently
  (`RepeatOrder.RepeatShowsTheSameRefusalsIff`).
- An edit that moves an address to another city keeps the parent stored with the old one, and it is right afterwards
  if and only if both cities have the same parent (`AddressBookRuns.ParentStaysRightIff`).
- An offer counts as in time until it is a whole second late, because the gap is cut to seconds
  (`QuoteReuse.DeadlineGapIsOneSided`).

## Model

| member | source | states |
|---|---|---|
| Rounding.HalfEvenIsTheNearestEven | backend/src/aerogram/intelligence/service.py:58-66 | the default rounding of `quantize`: the nearest value, and of two the even one, in both directions |
| Rounding.HalfUpIsTheNearestAwayFromZero | backend/src/aerogram/intelligence/score.py:233-238 | the rounding of the points: the nearest value, ties away from zero, in both directions |
| Rounding.Quantize4Complement | backend/src/aerogram/intelligence/platform.py:166-169 | one minus a rounded share is exactly the rounded share of the complement |
| Rounding.Quantize4KeepsFourDecimals | backend/src/aerogram/intelligence/service.py:318-335 | a share that has four decimals survives storage unchanged |
| CarrierScore.NoNumberMeansInsufficient | backend/src/aerogram/intelligence/score.py:207-239 | no score, "insufficient" and "no data" always come together, and mean under ten own shipments without a baseline |
| CarrierScore.SmoothedDistance | backend/src/aerogram/intelligence/score.py:163-173 | after n own shipments the smoothed share is exactly 20/(n+20) of the initial distance away from the observed one |
| CarrierScore.WeightedIsBlend | backend/src/aerogram/intelligence/score.py:207-239 | the weighted sum of smoothed components is one blend of the prior's and the observed weighted sum |
| CarrierScore.ClampNeverActs | backend/src/aerogram/intelligence/score.py:233-239 | shares in [0,1] give points in 0..100 before the clamp |
| CarrierScore.NoShipmentsGiveThePrior | backend/src/aerogram/intelligence/score.py:163-173 | with no own shipment the score is exactly the prior's |
| CarrierScore.OneMoreShipment | backend/src/aerogram/intelligence/score.py:207-239 | the shipment n+1 moves the score by at most 2000/((n+20)(n+21)), rounded up |
| CarrierScore.AtMostFivePoints | backend/src/aerogram/intelligence/score.py:194-239 | for every n, across the basis thresholds too, by at most 5 points, and by at most 1 from n = 25 on |
| CarrierScore.FivePointsAreReached | backend/src/aerogram/intelligence/score.py:207-239 | the bound of five points is attained |
| CarrierScore.ScoreMovesTowardTheObserved | backend/src/aerogram/intelligence/score.py:163-173 | with more shipments of the same shares the score moves one way only |
| CarrierScore.ScoreMonotone | backend/src/aerogram/intelligence/score.py:207-239 | component by component no worse gives a score that is no worse, with the same confidence and basis |
| CarrierScore.PointsAreOneDivision | backend/src/aerogram/intelligence/score.py:75-83 | on shares of whole ten-thousandths the decimal computation equals one integer division, each component with its weight |
| ScoreInputs.RateMonotone | backend/src/aerogram/intelligence/service.py:58-66 | rounded rates compare as their fractions do, between different wholes too |
| ScoreInputs.InverseIsRateOfRest | backend/src/aerogram/intelligence/service.py:265-284 | one minus the rate of failures is the rate of the rest, rounding included |
| ScoreInputs.MedianRank | backend/src/aerogram/intelligence/service.py:94-161 | the market median is an upper median: at most half of the costs below it, more than half not above it |
| ScoreInputs.ScoreNeedsNoClamp | backend/src/aerogram/intelligence/service.py:265-284 | for consistent counters the rounded points are on the scale before the clamp |
| ScoreInputs.PipelineMonotone | backend/src/aerogram/intelligence/service.py:58-83 | through rate rounding, smoothing, weighting and final rounding: more punctual or tracked deliveries never lower the score, more broken or incident ones or a higher median cost never raise it |
| ScoreInputs.RaisingOwnCostNeverHelps | backend/src/aerogram/intelligence/service.py:69-83 | a carrier that becomes dearer never gains, although its cost also moves the median it is compared with |
| PlatformPool.Accumulate | backend/src/aerogram/intelligence/platform.py:76-121 | the nested loops give one row per carrier that shipped, with the sums over all tenants' rows |
| PlatformPool.PoolIgnoresTenantOrder | backend/src/aerogram/intelligence/platform.py:76-121 | any rearrangement of the tenants gives the same pool |
| PlatformPool.PoolingConserves | backend/src/aerogram/intelligence/platform.py:76-121 | every counter of the carriers' pools adds up to that of all counted rows |
| PlatformPool.TenantsAreCounted | backend/src/aerogram/intelligence/platform.py:67-73 | with one row per carrier and tenant, the tenant counter is the number of tenants that shipped |
| PlatformPool.PooledRateIsBetween | backend/src/aerogram/intelligence/platform.py:159-163 | the pooled rate lies between the rounded rates of two contributing tenants, kept by the rounding |
| PlatformPool.BaselineRoundTrip | backend/src/aerogram/intelligence/service.py:287-335 | saving a pool and loading it back gives the same prior; a measured zero stays zero, an unmeasured share stays neutral |
| PlatformPool.PooledPriorInUnit | backend/src/aerogram/intelligence/platform.py:124-145 | every pool of consistent rows gives a prior in [0,1] |
| ScoreService.ScoreTables.SaveBaselines | backend/src/aerogram/intelligence/service.py:172-200 | the table holds exactly the baselines of the published pools beside the other rows, a row that is written again keeping its first time |
| ScoreService.ScoreTables.UpsertBaseline | backend/src/aerogram/intelligence/repository.py:183-216 | new figures over the row of the same carrier, period and version, or a new row with the present time |
| ScoreService.ScoreTables.LatestBaselines | backend/src/aerogram/intelligence/repository.py:165-181 | the loop over the ordered rows keeps the first of each carrier |
| ScoreService.FirstIsLatest | backend/src/aerogram/intelligence/repository.py:165-181 | what is kept is, for each carrier in the table, a row that no other of it is fresher than |
| ScoreLaws.TheFresherComesFirst | backend/src/aerogram/intelligence/repository.py:165-181 | the query gives the fresher of two rows of a carrier first, and in no other order |
| ScoreService.ScoreTables.Recalculate | backend/src/aerogram/intelligence/service.py:94-161 | the table gains exactly one snapshot for each carrier that was used or has a baseline, computed with the baselines loaded from the table; what it says of each counter is `ScoreLaws.WhatASnapshotSays` |
| ScoreService.RowsToScore | backend/src/aerogram/intelligence/service.py:94-161 | the rows to score are the observed ones and an empty one for each carrier known only by its baseline |
| ScoreLaws.WhatASnapshotSays | backend/src/aerogram/intelligence/service.py:265-284 | from the counters, without the functions that compute it: the stored on-time share is present if and only if some shipment had a deadline, and is the nearest ten-thousandth, ties to even, of those in time among them; the unbroken, incident-free and transparent shares are of all finished shipments, each in its own column, and the price index beside them; the score is that of these shares and of the finished shipments |
| ScoreLaws.WhatAnUnusedCarrierShows | backend/src/aerogram/intelligence/service.py:94-161 | a carrier that was never used has no share and no price of its own, and the score of its baseline |
| ScoreLaws.RateIsShare | backend/src/aerogram/intelligence/service.py:58-66 | a rate is the nearest-even ten-thousandth of its fraction, stated in integers |
| ScoreLaws.PriceIndexIs | backend/src/aerogram/intelligence/service.py:69-83 | the price index is the nearest-even share of what the cost leaves of twice the median, none of it below nothing and all of it above the whole |
| ScoreLaws.PriceIndexMarks | backend/src/aerogram/intelligence/service.py:69-83 | one half at the median, one at nothing, zero from twice the median on |
| ScoreLaws.NoDeadlineNoPunishment | backend/src/aerogram/intelligence/service.py:265-284 | more shipments without a deadline leave the on-time share as it was |
| ScoreLaws.AllInTime | backend/src/aerogram/intelligence/service.py:265-284 | a hundred deliveries, the fifty that had a deadline all in time, score 85 |
| ScoreLaws.ConfidenceIs | backend/src/aerogram/intelligence/score.py:176-225 | confidence is high from a hundred own shipments, medium from thirty, low from ten or with a baseline; what the score rests on, and when there is none |
| ScoreLaws.ScoreIsOnTheScale | backend/src/aerogram/intelligence/score.py:235-239 | whatever the shares are, a score is a number of points from 0 to 100 |
| ScoreLaws.OneMoreRowInAPool | backend/src/aerogram/intelligence/platform.py:76-121 | one row more adds each counter to its own of the carrier it belongs to, if it has finished shipments, and nothing else |
| ScoreLaws.WhatABaselineSays | backend/src/aerogram/intelligence/platform.py:124-169 | a baseline is published if and only if three tenants shipped thirty shipments, and says their numbers and each share of the pool in its own column, a half where nothing was measured |
| ScoreLaws.WhatAPriorSays | backend/src/aerogram/intelligence/service.py:287-315 | a stored baseline is taken at its own figures, a half for each missing one and for the price |
| ScoreLaws.WhatASaveDoes | backend/src/aerogram/intelligence/repository.py:183-216 | a save gives a known row new figures and its old time, a new one the present time, and touches no other |
| ScoreService.BaselinesIgnoreTenantOrder | backend/src/aerogram/intelligence/service.py:172-200 | the order of the tenants leaves no trace in the table |
| ScoreService.BaselinesAreAnonymous | backend/src/aerogram/intelligence/platform.py:67-73 | no baseline of fewer than three tenants or thirty shipments is ever written, and the written count is that of the tenants |
| ScoreService.UnusedCarrierShowsTheBaseline | backend/src/aerogram/intelligence/service.py:94-161 | a carrier without own shipments is scored by its baseline, with platform basis and low confidence |
| ScoreService.SavedPoolIsLoadedIff | backend/src/aerogram/intelligence/repository.py:165-216 | a pool that was just saved is what is loaded for its carrier if and only if no other stored row ends later, or with it and was first written no earlier |
| ScoreService.NewestPeriodIsLoaded | backend/src/aerogram/intelligence/repository.py:165-181 | after a first save for a period no older than any stored one, by a clock that moves on, the loaded baseline is that of the pool of all tenants |
| ScoreService.NewcomerIsScoredByThePool | backend/src/aerogram/intelligence/service.py:172-335 | the steps together over the table, save, load and score: a newcomer's score is computed from the pool of all tenants when the saved row is the freshest |
| Ranking.StableOrder | backend/src/aerogram/rating/service.py:1068-1073 | the sorted order of positions, equal keys in input order |
| Ranking.RankQuotes | backend/src/aerogram/rating/service.py:1038-1073 | in place, each offer gets one plus the number of offers before it; nothing is written when no price is known; what the key weighs is `RankTradeOff.TradeOff` |
| Ranking.RanksArePermutation | backend/src/aerogram/rating/service.py:1068-1073 | the ranks are 1..n, each once |
| Ranking.RankFollowsOrder | backend/src/aerogram/rating/service.py:1061-1073 | ranks order the offers exactly as the key and the input order do |
| Ranking.LateRanksLast | backend/src/aerogram/rating/service.py:1061-1067 | with a required deadline, every offer that misses it ranks after all others |
| Ranking.DeadlineIsIgnoredWhenNotRequired | backend/src/aerogram/rating/service.py:1061-1067 | without one, offers of equal price and days keep their input order whether or not they are late |
| Ranking.DominatingOfferRanksAhead | backend/src/aerogram/rating/service.py:1038-1067 | within a bucket, no worse in price and days and strictly better in one ranks strictly ahead |
| Ranking.RanksIgnorePriceScale | backend/src/aerogram/rating/service.py:1038-1060 | a positive affine change of all prices changes no rank |
| Ranking.NewOfferKeepsRelativeOrder | backend/src/aerogram/rating/service.py:1038-1060 | an offer inside the existing ranges changes nothing between the others |
| RankTradeOff.TradeOff | backend/src/aerogram/rating/service.py:1050-1073 | the trade-off over the offers alone: in one bucket, with known prices and days over ranges of widths P and D, an offer ranks ahead of another if and only if four times the price difference times D plus three times the difference in days times P is negative, or zero with the first one earlier |
| RankTradeOff.RanksByTrade | backend/src/aerogram/rating/service.py:1038-1073 | the same for unknown prices and days, counted as the lowest known, for ranges without width, and for two buckets |
| RankTradeOff.OneMeasureDecides | backend/src/aerogram/rating/service.py:1050-1060 | where all prices are equal the days decide, and where all days are equal the price |
| RankTradeOff.CheapBeforeFast | backend/src/aerogram/rating/service.py:1050-1073 | a cheap slow offer before a fast one of twice its price |
| CarrierPoll.Poll | backend/src/aerogram/rating/service.py:477-526 | for every schedule one outcome per prepared account, in prepared order |
| CarrierPoll.Wait | backend/src/aerogram/rating/service.py:495-512 | a task's state after the wait is its first completion before the deadline, or none |
| CarrierPoll.RowNamesItsOwnCarrier | backend/src/aerogram/rating/service.py:512-526 | every row, a timeout row too, names the account and the carrier of one prepared account, each account once and in order |
| CarrierPoll.ScheduleDoesNotMatter | backend/src/aerogram/rating/service.py:477-526 | schedules that finish the same tasks with the same results give equal lists |
| CarrierPoll.NeighboursCanBeExchanged | backend/src/aerogram/rating/service.py:495-512 | neighbouring completions of different tasks can be exchanged |
| AnswerLaws.WhoIsPrepared | backend/src/aerogram/rating/service.py:528-598 | an account is prepared if and only if its carrier is active and its credentials can be read, under that carrier's code |
| AnswerLaws.WhatARowOfThePollSays | backend/src/aerogram/rating/service.py:512-649 | a row says a time-out when its task did not finish in time, and otherwise its answer or the code of the failure, one for each way a call can end |
| QuoteReuse.FingerprintIsExact | backend/src/aerogram/rating/service.py:765-795 | two fingerprints agree if and only if the requests mean the same under the same policy version |
| QuoteReuse.EligibleAccountsAre | backend/src/aerogram/rating/service.py:397-419 | the accounts kept are those the lists admit, each as often as it came |
| QuoteReuse.ApplyPolicy | backend/src/aerogram/rating/service.py:425-475 | the loop gives the accounts to ask and the refusals |
| QuoteReuse.PolicySplitsAccounts | backend/src/aerogram/rating/service.py:425-475 | each account of a known carrier is asked or refused, never both, and none is lost |
| QuoteReuse.RefusedComesFrom | backend/src/aerogram/rating/service.py:425-475 | every refusal belongs to an account that the policy refuses, with its reason |
| AnswerLaws.WhoIsAsked | backend/src/aerogram/rating/service.py:425-475 | by the rules alone: an account is asked, as often as it is eligible, if and only if its carrier is known, not forbidden, and insures where that is required |
| AnswerLaws.WhyAnAccountIsRefused | backend/src/aerogram/rating/service.py:440-472 | a refusal names its account and carrier, and the reason of the rule or the general one |
| QuoteReuse.EveryRowIsShownOnce | backend/src/aerogram/rating/service.py:277-395 | every saved row is in exactly one of offers, blocked and failures; the deadline flag is exact |
| QuoteReuse.OffersIgnoreRowOrder | backend/src/aerogram/rating/service.py:277-395 | rows read back in any order give the same offers list |
| AnswerLaws.OrderOfOffers | backend/src/aerogram/rating/service.py:338-345 | by positions: of two shown offers the first has the earlier currency, then the lower amount, then the earlier name of the carrier, then the earlier identifier |
| AnswerLaws.OrderOfTheOthers | backend/src/aerogram/rating/service.py:359-379 | refusals and failures are shown by the carrier's code |
| AnswerLaws.OneCarrierKeepsItsOrder | backend/src/aerogram/rating/service.py:359-379 | several of one code in the order they were read in |
| QuoteReuse.DeadlineGapIsOneSided | backend/src/aerogram/rating/service.py:1013-1022 | margin and lateness are never both positive; in time means less than a whole second late |
| SavedAnswers.Persist | backend/src/aerogram/rating/service.py:651-759 | the loops save one row per refusal, per tariff and per failure, numbered in order, and every offer among them has its rank |
| AnswerLaws.RefusedAreSavedFirst | backend/src/aerogram/rating/service.py:665-685 | the refused carriers stand first and in order, without an amount, with the code of a refusal |
| AnswerLaws.OneMoreOutcome | backend/src/aerogram/rating/service.py:687-754 | one outcome more adds its rows behind all others: one with the error, or one for each tariff with its amount, days and whether it is in time, an unknown time counting as fit |
| SavedAnswers.RankRows | backend/src/aerogram/rating/service.py:756-757 | the priced rows, and no others, get the ranks of the list they form |
| SavedAnswers.SavedRowsNameTheAccounts | backend/src/aerogram/rating/service.py:651-759 | the saved rows name exactly the refused accounts and the polled ones that left a trace |
| SavedAnswers.RepeatShowsTheSameOffers | backend/src/aerogram/rating/service.py:245-395 | a reused answer shows the offers of the fresh one, whatever order its rows come back in |
| RepeatOrder.RepeatShowsTheSameRefusalsIff | backend/src/aerogram/rating/service.py:353-380 | whatever order the rows come back in, refusals and failures are shown as before if and only if no two of one carrier code in one list are shown differently |
| SavedAnswers.FindReusable | backend/src/aerogram/rating/service.py:245-262 | the freshest living answer under a fingerprint |
| SavedAnswers.Reusable | backend/src/aerogram/rating/service.py:245-275 | a reused answer belongs to an equivalent request, has a priced offer and the same accounts; the freshest living answer is reused if and only if it qualifies |
| SavedAnswers.FitForRepeatIff | backend/src/aerogram/rating/service.py:265-275 | the answer of one poll is fit for the same accounts if and only if some carrier quoted a tariff and every account was refused or left a row |
| BulkRows.RowKeyInjective | backend/src/aerogram/bulk/service.py:79-85 | a derived key names one row of one run |
| BulkRows.KeyedService.GetOrCreate | backend/src/aerogram/bulk/service.py:15-18 | the oracle of the keyed services: a repeated key returns the stored result |
| BulkRows.BulkRow.Fail | backend/src/aerogram/bulk/service.py:488-508 | a failed row carries its reason and keeps its links |
| BulkRows.BulkRun.QuoteAll | backend/src/aerogram/bulk/service.py:340-366 | the loop over objects equals the pass over values, row by row |
| BulkRows.BulkRun.SelectAll | backend/src/aerogram/bulk/service.py:368-429 | the same for decisions, with the service's store after it |
| BulkRows.BulkRun.CreateAll | backend/src/aerogram/bulk/service.py:456-486 | the same for shipments |
| BulkLaws.WhatQuotingDoes | backend/src/aerogram/bulk/service.py:340-366 | by the fields of each row: a new row has its own quote and nothing else changed, or fails with its reason; any other row is untouched |
| BulkLaws.WhatSelectionDoes | backend/src/aerogram/bulk/service.py:368-429 | a quoted row stores the recommendation it was made from and the decision of its key, the stored one if there is one; a recommendation without an offer fails with its own reason, every exception with its own |
| BulkLaws.WhatCreationDoes | backend/src/aerogram/bulk/service.py:456-486 | a selected row stores the shipment of its key, the stored one if there is one, or fails with its reason |
| BulkLaws.DecisionsAfterSelection | backend/src/aerogram/bulk/service.py:368-429 | the decision service holds something new under a row's key if and only if the row was quoted, was recommended an offer and the call got that far; in a pass that is lost, up to where it got |
| BulkLaws.ShipmentsAfterCreation | backend/src/aerogram/bulk/service.py:456-486 | the same for the shipments |
| BulkLaws.OtherRunsAreLeftAlone | backend/src/aerogram/bulk/service.py:79-85 | a pass stores nothing under the key of another run |
| BulkRows.BulkRun.UpdateStatus | backend/src/aerogram/bulk/service.py:542-562 | the run's status is derived from its rows |
| BulkLaws.WhatTheRunSays | backend/src/aerogram/bulk/service.py:542-562 | with a row in work the run is quoted after quoting and selection and creating after creation; without one it is completed if some row was created or there is none, and failed otherwise |
| BulkRows.BulkRun.ShipmentIds | backend/src/aerogram/bulk/service.py:447-454 | the shipments of the run in the order of its rows |
| BulkLaws.ShipmentsInRowOrder | backend/src/aerogram/bulk/service.py:447-454 | each row with a shipment has its place in the list, behind all rows before it |
| BulkLaws.AsManyLabelsAsShipments | backend/src/aerogram/bulk/service.py:447-454 | and nothing else is in the list |
| BulkRuns.StepKeepsInv | backend/src/aerogram/bulk/service.py:340-508 | each pass, lost or kept, keeps: links written once, advanced rows carry their link, failed rows a reason |
| BulkRuns.RunKeepsInv | backend/src/aerogram/bulk/service.py:340-508 | so does every history of passes, losses and other runs |
| BulkRuns.NoSharedShipments | backend/src/aerogram/bulk/service.py:456-486 | in every history no two rows share a shipment or a decision |
| BulkRuns.OrderedShipmentIsKept | backend/src/aerogram/bulk/service.py:456-486 | a shipment ordered for a row, its row write lost or not, is the only one the row can ever get |
| BulkRuns.LostCreationIsCompleted | backend/src/aerogram/bulk/service.py:15-18 | running a creation again that was lost after any of its rows completes each row reached with the shipment already ordered |
| BulkRuns.OneFailureStaysAlone | backend/src/aerogram/bulk/service.py:340-508 | in quoting, selection and creation one row's exception fails that row and keeps its links, and changes neither another row nor what the services hold under the other keys |
| BulkRuns.NoButtonMeansFinished | frontend/src/lib/bulkStatus.ts:45-52 | there is no next step exactly when no row is unfinished |
| BulkLaws.WhatTheButtonIs | frontend/src/lib/bulkStatus.ts:45-52 | the button quotes while there is a new row, selects when there is none but a quoted one, then creates |
| BulkRuns.PassTakesItsRows | frontend/src/lib/bulkStatus.ts:45-52 | the server takes exactly the rows that the button counts |
| BulkRuns.PressMakesProgress | frontend/src/lib/bulkStatus.ts:45-52 | an offered press changes the run and lowers the number of presses left |
| BulkRuns.StatusAfterPass | backend/src/aerogram/bulk/service.py:542-562 | the run is over exactly when there is no button, and failed exactly when every row did |
| BulkRuns.ThreePressesFinish | frontend/src/lib/bulkStatus.ts:45-52 | from every reachable run three presses finish it |
| Documents.DocumentService.Pull | backend/src/aerogram/documents/service.py:280-332 | the whole new state of asking for one form, and whether it raises; what becomes of a row is `DocumentLaws.WhatASweepDoesToARow` |
| DocumentLaws.WhatASweepDoesToARow | backend/src/aerogram/documents/service.py:228-332 | by status and fields: one sweep leaves a pending row exactly as it was if and only if it is not overdue and the carrier is not ready or the shipment is gone; it fails, each time with its own reason, if and only if it is overdue, has no number or is refused; it is ready, with key and size, if and only if the form was stored |
| DocumentLaws.WhatAnOrderDoesToItsRow | backend/src/aerogram/documents/service.py:131-160 | the same for the row of a new order |
| DocumentLaws.PromisedFormIsWaitedFor | backend/src/aerogram/documents/service.py:311-313 | a form the carrier promised leaves its row pending |
| DocumentLaws.WhatAPullDoesToShipments | backend/src/aerogram/documents/service.py:315-321 | a shipment learns its waybill number if and only if a form arrives with one for a shipment that has none, and nothing else of any shipment changes |
| DocumentLaws.WhatAPullDoesBesideTheRow | backend/src/aerogram/documents/service.py:280-332 | other rows stay, and of the files only the one that was stored is new |
| DocumentLaws.WhatASweepDoesBesideTheRow | backend/src/aerogram/documents/service.py:228-243 | the same for a sweep |
| DocumentLaws.WhatAPullReports | backend/src/aerogram/documents/service.py:280-332 | a pull counts a new file, and raises for a missing shipment or a refused file, in no other case |
| DocumentLaws.WhatAnExpiryDoes | backend/src/aerogram/documents/service.py:263-273 | an expiry marks the row whose file was deleted, and touches nothing when the storage refuses |
| DocumentLaws.WhatASweepCounts | backend/src/aerogram/documents/service.py:228-243 | a sweep counts a document if and only if it made it ready |
| DocumentLaws.WhatAnExpiryCounts | backend/src/aerogram/documents/service.py:245-276 | an expiry counts a document if and only if it made it expired |
| DocumentLaws.WhichFormsAreDue | backend/src/aerogram/documents/repository.py:90-102 | asked for again are forms pending for two minutes, the older before the younger, fifty at most |
| DocumentLaws.WhichFilesExpire | backend/src/aerogram/documents/service.py:245-263 | deleted are ready files of shipments finished for more than thirty days, two hundred at most, each under its own key |
| DocumentLaws.DelaysAre | backend/src/aerogram/documents/service.py:58-86 | the two minutes before a form is asked for again, the day after which it is given up, the thirty days a file is kept |
| DocumentLaws.WhatAFormatIsStoredAs | backend/src/aerogram/documents/service.py:144-157 | how each format of a label is stored |
| Documents.DocumentService.OrderOne | backend/src/aerogram/documents/service.py:131-160 | the same inside a transaction that is still open, as the loop over a list calls it |
| Documents.DocumentService.Label | backend/src/aerogram/documents/service.py:131-160 | one request: an ordered label is given back without a call, otherwise a row is added and pulled once; it raises exactly as stated, and then keeps only what it did to the storage |
| Documents.DocumentService.OrderLabels | backend/src/aerogram/documents/service.py:164-180 | one press commits if and only if no shipment of the list raises; then the counts are those of one label for each, otherwise rows and shipments are as before |
| Documents.DocumentService.PendingDocuments | backend/src/aerogram/documents/repository.py:90-102 | the oldest pending documents up to the limit, ties in any order |
| Documents.DocumentService.SweepBatch | backend/src/aerogram/documents/service.py:228-243 | the loop stops at the first document that raises; otherwise it has handled all and counts the new files |
| Documents.DocumentService.FetchPending | backend/src/aerogram/documents/service.py:219-243 | a sweep commits all of it if and only if nothing in it raises, and keeps only what it did to the storage otherwise |
| Documents.DocumentService.ExpireFiles | backend/src/aerogram/documents/service.py:245-276 | files deleted and rows marked pair by pair, refused deletions skipped, and the count returned |
| DocumentSweeps.BatchTakesTheOldest | backend/src/aerogram/documents/repository.py:96-101 | an oldest-first batch holds as many of the documents older than any instant as its limit allows |
| DocumentSweeps.SweepReaches | backend/src/aerogram/documents/service.py:228-243 | after n documents of a sweep those are handled, every other row and file is as before, waybills are kept |
| DocumentSweeps.SweepGivesUpTheOverdue | backend/src/aerogram/documents/service.py:228-235 | a sweep fails exactly min(50, overdue) overdue documents if and only if it commits or none is overdue, whatever the carriers answer |
| DocumentSweeps.SweepIsQuietIff | backend/src/aerogram/documents/service.py:228-332 | nothing in a sweep raises if and only if no document of the batch that is not overdue has a missing shipment or a form whose file is refused, all seen beforehand |
| DocumentSweeps.StuckSweepGivesUpNothing | backend/src/aerogram/documents/service.py:219-243 | an input on which a sweep never commits and gives nothing up |
| DocumentSweeps.FullBatchAsksNobody | backend/src/aerogram/documents/service.py:228-235 | facing fifty overdue documents a sweep calls no carrier, writes no file and cannot raise |
| DocumentRuns.OverdueDocumentsDrain | backend/src/aerogram/documents/service.py:219-243 | over every run, k documents are at most k - 50m after m committed sweeps a day later |
| DocumentRuns.BacklogIsGone | backend/src/aerogram/documents/service.py:219-243 | so ceil(k/50) such sweeps empty the backlog |
| DocumentRuns.StepKeeps | backend/src/aerogram/documents/service.py:131-332 | every transaction, committed or lost, keeps closed rows, row identity, waybill numbers, file ownership and one label each |
| DocumentRuns.RunKeeps | backend/src/aerogram/documents/service.py:131-332 | so does every run |
| DocumentRuns.NoFileOfAnExpiredDocument | backend/src/aerogram/documents/service.py:263-273 | an expired document's file is never in the storage, crashes included |
| DocumentRuns.WhatIsSettledStays | backend/src/aerogram/documents/service.py:315-321 | failed and expired rows never change, and a committed waybill number never does |
| DocumentRuns.OneLabelForAShipment | backend/src/aerogram/documents/service.py:144-157 | orders that do not overlap leave one label per shipment and format |
| LabelLists.CallsAreForMissingLabels | backend/src/aerogram/documents/service.py:164-180 | a press costs at most one carrier call for each different shipment without a label; committed, it leaves none without, and lost, it leaves rows and shipments as they were |
| LabelLists.SecondPressIsFreeIff | backend/src/aerogram/documents/service.py:164-180 | the same list again asks no carrier if and only if the first press committed or its list asked none from the start |
| LabelLists.PressIsSilentIff | backend/src/aerogram/documents/service.py:164-180 | a press that ran its course asks no carrier if and only if each shipment has a label or no number, or an unknown one stands before it |
| LabelLists.RaisedPressIsRepeated | backend/src/aerogram/documents/service.py:280-332 | an input on which the second press asks the carrier again |
| DocumentRuns.ReadyHaveFilesIff | backend/src/aerogram/documents/service.py:263-273 | a step leaves every ready document with its file if and only if each of its deletions is recorded |
| CircuitBreakers.CircuitBreaker.IsOpen | backend/src/aerogram/carriers/http.py:75-84 | reading closes the breaker once the cooldown is over |
| CircuitBreakers.CircuitBreaker.RecordSuccess | backend/src/aerogram/carriers/http.py:86-88 | a success closes it and forgets all failures |
| CircuitBreakers.CircuitBreaker.RecordFailure | backend/src/aerogram/carriers/http.py:90-93 | a failure counts, and opens it from now on at the threshold |
| CircuitBreakers.WhatAStatusMeans | backend/src/aerogram/carriers/http.py:149-156 | 429, 502, 503 and 504 are tried again; only a refusal of the data can be asked for as an answer |
| CircuitBreakers.Request | backend/src/aerogram/carriers/http.py:133-233 | the retry loop equals the fold over the replies it needs: answer, calls, sleep and breaker; when it goes on is `CircuitBreakers.RequestGoesOnIff` |
| CircuitBreakers.RequestGoesOnIff | backend/src/aerogram/carriers/http.py:163-233 | over outcomes alone: a request with attempts left makes another call if and only if its last one timed out, failed in transport, or answered 429, 502, 503 or 504, and it may retry |
| CircuitBreakers.WhatTheCallerGets | backend/src/aerogram/carriers/http.py:163-248 | which error the caller gets for a time-out, a transport failure and each range of statuses |
| CircuitBreakers.DoneStaysDone | backend/src/aerogram/carriers/http.py:163-233 | once it is over, no further outcome changes a request |
| CircuitBreakers.TimeoutIsTriedAgain | backend/src/aerogram/carriers/http.py:225-231 | a request that times out once and then answers: two calls and a fifth of a second |
| CircuitBreakers.WhatABreakerLearns | backend/src/aerogram/carriers/http.py:163-224 | which outcome the breaker counts as a failure and which as a success |
| CircuitBreakers.SleepsArePaced | backend/src/aerogram/carriers/http.py:163-233 | k calls, at most max_attempts, sleep 0.2(2^(k-1) - 1) seconds; the failure after the loop is reached only without attempts |
| BreakerRuns.RunKeepsInv | backend/src/aerogram/carriers/http.py:61-93 | the invariant of every interleaving |
| BreakerRuns.ClosedMeansFewFailures | backend/src/aerogram/carriers/http.py:90-93 | closed if and only if fewer than threshold failures since the last reset |
| BreakerRuns.NoCallBeforeTheCooldownEnds | backend/src/aerogram/carriers/http.py:157-158 | a request that begins before the cooldown of an opening failure ends is refused and never sent |
| BreakerRuns.RequestsArePacedApart | backend/src/aerogram/carriers/http.py:163-233 | interleaved or not, each request is paced by its own attempts alone |
| BreakerRuns.TrialCallIsNotAlone | backend/src/aerogram/carriers/http.py:79-83 | after the cooldown every request passes; a failed trial reopens if and only if the threshold is one |
| Terminals.TerminalTable.UpsertMany | backend/src/aerogram/directories/repository.py:171-221 | known codes updated in place, unknown ones waiting for the flush, both counted |
| Terminals.TerminalTable.DeactivateMissing | backend/src/aerogram/directories/repository.py:223-248 | of the carrier's active terminals exactly the exported ones stay active, by a statement over the stored rows, whose flags the objects of the session take over; the count is what the stored network lost |
| Terminals.TerminalTable.Flush | backend/src/aerogram/directories/models.py:97-119 | what waits and what has changed is written if and only if the new keys differ and every such row fits its columns and its kind |
| Terminals.TerminalTable.Sync | backend/src/aerogram/directories/service.py:555-591 | the terminals of one export in a transaction of their own: the whole table row by row, its refusal exactly for a repeated new code or a row that does not fit, and the counts as set differences |
| TerminalRuns.CompleteExportDecides | backend/src/aerogram/directories/service.py:577-581 | after a complete export the active codes are exactly the exported ones |
| TerminalRuns.NothingElseIsLost | backend/src/aerogram/directories/repository.py:223-248 | no row deleted, other carriers untouched, nothing switched off by an incomplete export |
| TerminalRuns.NothingElseAppears | backend/src/aerogram/directories/repository.py:182-205 | only exported codes of that carrier are added |
| TerminalRuns.WhatAToldRowSays | backend/src/aerogram/directories/repository.py:171-221 | an exported terminal is on, has what the last row of its code says, and the time of this synchronisation |
| TerminalRuns.WhatAMissedRowSays | backend/src/aerogram/directories/repository.py:223-248 | one that a complete export misses is off from that time on and keeps all the rest; an incomplete export changes nothing of it |
| TerminalRuns.WhatIsCounted | backend/src/aerogram/directories/service.py:577-591 | the counts are of the terminals that were on and are off, and of those that were not known and are |
| TerminalRuns.FitsIff | backend/src/aerogram/directories/models.py:97-119 | which rows the columns take: lengths, null characters, three kinds, and a weight below ten million kilograms after rounding |
| TerminalRuns.RepeatIsQuiet | backend/src/aerogram/directories/service.py:545-610 | an export that was accepted creates and switches off nothing when it comes again, and is not refused |
| TerminalRuns.RepeatedRow | backend/src/aerogram/directories/repository.py:207-218 | row by row, the same export again changes the time of the synchronisation and nothing else |
| TerminalRuns.EmptyExportKeepsTheNetworkIff | backend/src/aerogram/directories/repository.py:240-240 | an empty export keeps the network if and only if it is incomplete or nothing was active |
| TerminalRuns.RunsKeepFlags | backend/src/aerogram/directories/repository.py:207-218 | in every run active means without a deactivation time, every row fits its columns, and rows only accumulate |
| CityMatching.MatchOne | backend/src/aerogram/directories/service.py:405-456 | the ladder with its loops and the sort of the scored candidates, the five best of them shown; which city it names is `CityMatching.CodePlacesInItsCity` and `CityMatching.WhatANameDecides` |
| CityMatching.CodeDecidesIff | backend/src/aerogram/directories/service.py:412-422 | a code places a row if and only if exactly one candidate carries it |
| CityMatching.CodePlacesInItsCity | backend/src/aerogram/directories/service.py:416-422 | and then the row is placed in the city of that candidate, confirmed, with score 0.99 |
| CityMatching.IdentifierPlacesInItsCity | backend/src/aerogram/directories/service.py:411-414 | an identifier that is known places the row in its own city, for certain |
| CityMatching.SecondOfOneName | backend/src/aerogram/directories/service.py:416-422 | of two cities of one name the code places the row in the second |
| CityMatching.AcceptedByNameIff | backend/src/aerogram/directories/service.py:424-456 | accepted by name if and only if one candidate scores at least 0.93 and every other is 0.05 behind |
| CityMatching.WhatANameDecides | backend/src/aerogram/directories/service.py:424-457 | what the best candidate by name leads to: the city, its method and whether it is confirmed, or the reason why a person has to decide, with the score |
| CityMatching.ShownCitiesMayBeIt | backend/src/aerogram/directories/service.py:434-437 | who is shown to that person: at most five candidates that may be it, with their own names and scores in thousandths |
| CityMatching.AcceptedByNameKnowsTheRegion | backend/src/aerogram/directories/service.py:458-471 | a row or city without a region is never accepted by name |
| CityMatching.CandidateOrderDoesNotMatter | backend/src/aerogram/directories/service.py:426-456 | the outcome by name, refusals included, and the scores shown do not depend on the order of the candidates; neither do the cities shown when no two have one score |
| CityMappings.CityMappingService.Upsert | backend/src/aerogram/directories/repository.py:275-322 | a confirmed mapping is left alone, an unconfirmed one rewritten and left unconfirmed |
| CityMappings.CityMappingService.Enqueue | backend/src/aerogram/directories/repository.py:324-375 | a resolved item is left alone |
| CityMappings.CityMappingService.MatchCarrierCities | backend/src/aerogram/directories/service.py:366-403 | the export placed row by row, and counted by method |
| CityMappings.CodeIsWrittenUnderItsCity | backend/src/aerogram/directories/service.py:374-403 | a row placed by its code is written under the city of the only candidate with that code |
| CityMappings.WhatIsQueued | backend/src/aerogram/directories/service.py:374-390 | a row that is not placed waits with its own name, region and reason, and what is settled is left alone |
| CityMappings.EveryCityIsCounted | backend/src/aerogram/directories/service.py:374-403 | mapped plus queued equals the size of every export |
| CityMappings.CityMappingService.Confirm | backend/src/aerogram/directories/service.py:473-490 | the two writes of a manual choice |
| CityMappings.WhatAChoiceWrites | backend/src/aerogram/directories/service.py:473-490 | all that a manual choice writes: under the chosen city, for certain and by hand, and the item with its city |
| CityMappings.ConfirmedStays | backend/src/aerogram/directories/repository.py:304-322 | a confirmed mapping keeps its code through every later export and choice |
| CityMappings.ConfirmingConfirmsIff | backend/src/aerogram/directories/repository.py:304-313 | a choice becomes a confirmed mapping if and only if there was none or it was confirmed with that code |
| CityMappings.UnconfirmedChoiceIsOverwritten | backend/src/aerogram/directories/repository.py:304-313 | otherwise the next export can take the choice away |
| CityMappings.UnconfirmedMeansFuzzy | backend/src/aerogram/directories/service.py:450-456 | only an alike but unsure name leaves an unconfirmed mapping |
| RefSync.RefSyncService.Sync | backend/src/aerogram/directories/service.py:545-610 | the cities of an export placed first and then its terminals written, with mapped and queued adding up to its cities; it fails exactly when the database refuses a city |
| RefSync.RefSyncService.SyncTenant | backend/src/aerogram/worker/tasks.py:159-201 | all accounts of a tenant in one transaction: all of it, or everything as it was |
| RefSync.WhichCitiesFit | backend/src/aerogram/directories/models.py:171-223 | which rows of cities the columns take |
| RefSync.TenantSyncCommitsIff | backend/src/aerogram/worker/tasks.py:159-201 | it is accepted if and only if every city fits, no new terminal comes twice in its exports, in one or in two of them, and what they finally say of each terminal fits |
| RefSync.TwoAccountsUndoEverything | backend/src/aerogram/worker/tasks.py:169-171 | two accounts of one carrier with the same new terminal undo it for every carrier |
| RefSync.DetailsAtEnd | backend/src/aerogram/directories/repository.py:182-218 | every row of the final table says what was last told of it in any export, or what it said before |
| RefSync.OneUnfitTerminalUndoesEverything | backend/src/aerogram/directories/models.py:97-118 | a terminal outside its columns that no later account of its carrier corrects undoes it for every carrier |
| RefSync.HeavyWarehouseUndoesEverything | backend/src/aerogram/carriers/pecom/branches.py:231-245 | an input on which nothing comes twice and nothing is kept |
| SyncLaws.OneUnfitCityUndoesEverything | backend/src/aerogram/directories/service.py:545-610 | one city that the database does not take undoes the whole transaction, wherever it stands |
| SyncLaws.WhatIsReported | backend/src/aerogram/directories/service.py:577-610 | the number reported is that of the exported terminals of all accounts |
| RefSync.ReturnedTerminalStaysOff | backend/src/aerogram/directories/repository.py:236-248 | a terminal that was off, came back for one account and is missing for the next is off since when it was, and not counted |
| RefSync.EachCarrierAsIfAlone | backend/src/aerogram/worker/tasks.py:169-171 | when each carrier comes once, an accepted transaction leaves its rows exactly as its export alone would |
| SyncLaws.WhatAKnownTerminalSays | backend/src/aerogram/directories/repository.py:171-248 | with any number of accounts of one carrier: the last export that speaks of a known terminal decides; one that mentions it leaves it on, one that misses it leaves it off since the first export of the transaction that missed it, or since before if it was off already |
| SyncLaws.WhatItWasTold | backend/src/aerogram/directories/repository.py:171-221 | on or off, it has what the last export that mentions it says, and its time, or what it had |
| SyncLaws.NotSpokenOf | backend/src/aerogram/directories/service.py:545-610 | one of which no export speaks is as it was |
| SyncLaws.WhatANewTerminalSays | backend/src/aerogram/directories/repository.py:171-248 | a terminal that the table did not know is there and on if and only if some export mentions it, even when a later complete one misses it |
| SyncLaws.CitiesAsIfAlone | backend/src/aerogram/directories/service.py:366-403 | each city of a carrier, placed or waiting, ends as the exports of its carrier alone would have left it |
| RefSync.NoExportNoChange | backend/src/aerogram/worker/tasks.py:159-201 | and those of every other carrier as they were |
| AddressBook.AddressBookService.ClearDefaultSender | backend/src/aerogram/core/repository.py:310-319 | no default but the kept one is left, and nothing but that mark changes in any address |
| AddressBook.AddressBookService.AddAddress | backend/src/aerogram/core/service.py:556-587 | the address with its assessed fitness, the old default cleared first |
| AddressLaws.WhatIsInTheWay | backend/src/aerogram/shared/addresses.py:50-73 | the fitness of an address and the one thing that stands in its way, for each combination of the four facts |
| AddressLaws.WhatAnAddDoes | backend/src/aerogram/core/service.py:556-587 | by fields: the row of a new address, its fitness from country, city code and house, an empty country counting as Russia; the mark of the default sender moves, and nothing else of another address |
| AddressBook.AddressBookService.Create | backend/src/aerogram/core/service.py:518-554 | all of it or nothing; refused exactly when the INN and KPP are taken, or clash in the index |
| AddressLaws.WhyACounterpartyIsRefused | backend/src/aerogram/core/service.py:518-554 | a new counterparty is refused if and only if a live one has its INN, and the same KPP or, like it, none or an empty one |
| AddressBook.Apply | backend/src/aerogram/core/service.py:480-494 | the loop sets the named fields up to the first required one that would be cleared |
| AddressBook.AppliedIs | backend/src/aerogram/core/service.py:480-494 | refused exactly when the required field is cleared; else named fields hold the named values and the others their own |
| AddressBook.AddressBookService.Update | backend/src/aerogram/core/service.py:589-600 | named fields only; missing counterparty and cleared name refused |
| AddressLaws.WhatACounterpartyEditDoes | backend/src/aerogram/core/service.py:589-600 | an edit changes the texts it names, nothing when it clears the name, and no address |
| AddressBook.AddressBookService.UpdateAddress | backend/src/aerogram/core/service.py:602-651 | every refusal in the code's order with the book as it was, otherwise the edited address with its new fitness |
| AddressLaws.WhyAnEditIsRefused | backend/src/aerogram/core/service.py:602-651 | which of the three refusals an edit gets, each if and only if its own condition holds and no earlier one does |
| AddressLaws.WhatAnEditDoes | backend/src/aerogram/core/service.py:602-651 | an accepted edit: the named texts, the mark given or taken, the fitness of the new texts, and no more in any row |
| AddressBook.AddressBookService.SoftDelete | backend/src/aerogram/core/service.py:657-668 | the counterparty and all its live addresses marked, and no default left among them |
| AddressLaws.WhatADeletionDoes | backend/src/aerogram/core/service.py:657-668 | the time of the deletion in the counterparty and its live addresses, the mark taken from them, and no other field or row changed |
| AddressBookRuns.StepKeepsInv | backend/src/aerogram/core/service.py:518-668 | the invariant of the book through every call |
| AddressBookRuns.RunKeepsInv | backend/src/aerogram/core/models.py:191-262 | in every run: one default sender at most and a live one, owners outlive addresses, live INN and KPP unique, fitness current |
| AddressBookRuns.RunsFromEmptyKeepInv | backend/src/aerogram/core/models.py:191-262 | so does every run from an empty book |
| AddressLaws.StoredFitnessIs | backend/src/aerogram/core/service.py:556-651 | in every run from an empty book the stored fitness of each address is the one its country, city code and house give it |
| AddressBookRuns.DeletedStaysAsItWas | backend/src/aerogram/core/service.py:657-668 | no row is removed, and nothing changes a deleted one again |
| AddressBookRuns.EditSaysWhatItNames | backend/src/aerogram/core/service.py:623-642 | an accepted edit changes exactly what it names, never a city without its code or the reverse, and clears no city |
| AddressBookRuns.ParentStaysRightIff | backend/src/aerogram/core/service.py:623-642 | an edit leaves the stored parent of the city alone, which is right afterwards if and only if the edit names no city or one with the same parent |
| AddressBookRuns.DeletionFreesTheInn | backend/src/aerogram/core/models.py:191-200 | after a deletion the same INN and KPP are accepted again |
| AddressBookRuns.IndexAloneRefusesIff | backend/src/aerogram/core/repository.py:218-231 | the index refuses what the check refuses, and more if and only if one KPP is empty where the other is absent; a fact about the service, since the request schema admits no empty KPP |
| Billing.FiltersAgreeWithLabels | backend/src/aerogram/billing/repository.py:42-52 | under three-valued logic every filter is decided and selects exactly the rows of its label |
| Billing.FilteredListHasTheLabel | backend/src/aerogram/billing/repository.py:105-118 | a state filter shows exactly the rows of the unfiltered list with that label |
| BillingLaws.WhatALineIs | backend/src/aerogram/billing/service.py:117-133 | the label of a line by the sign of what was charged over what was promised |
| BillingLaws.WhatAQuerySelects | backend/src/aerogram/billing/repository.py:105-118 | a query selects, as often as they stand in the table, the shipments not older than its day, of its carrier and with its label where these are named |
| BillingLaws.DifferenceHasTheSignOfTheLabel | backend/src/aerogram/billing/service.py:136-161 | a line has a difference if and only if both amounts are known; it is positive exactly for overcharged lines and negative exactly for undercharged ones |
| Billing.CountersPartition | backend/src/aerogram/billing/repository.py:184-188 | the five counters add up to the shipments of the currency |
| Billing.CountersCountLabels | backend/src/aerogram/billing/service.py:117-133 | each counter of a currency is the number of its lines that carry that label |
| BillingLaws.OneMoreShipmentInACurrency | backend/src/aerogram/billing/repository.py:172-208 | one shipment more adds its promise where there is one, both amounts to the difference only where both are known, and one to exactly the counter its amounts call for |
| BillingLaws.OtherCurrenciesStayApart | backend/src/aerogram/billing/repository.py:172-208 | a shipment in another currency changes no figure |
| BillingLaws.OneMoreShipmentOfACarrier | backend/src/aerogram/billing/repository.py:210-245 | the same for the totals by carrier and currency |
| BillingLaws.NoShipmentIsNothing | backend/src/aerogram/billing/repository.py:172-245 | and without a shipment every figure of both is nothing |
| BillingLaws.WhatADifferenceIs | backend/src/aerogram/billing/service.py:164-193 | the difference shown is what was charged over what was promised, of the reconciled shipments |
| Billing.CurrencyDifferenceIsOfItsLines | backend/src/aerogram/billing/service.py:164-179 | a currency's difference is the sum of its line differences |
| Billing.TotalsAgree | backend/src/aerogram/billing/service.py:136-193 | for every query a currency's difference is the sum over its lines and over its carriers, and its reconciled amounts and shipments are shared out among its carriers |
| BillingPages.ByCurrencyGroups | backend/src/aerogram/billing/repository.py:172-208 | the totals by currency are a grouping: one row for each currency that occurs |
| BillingPages.ByCarrierGroups | backend/src/aerogram/billing/repository.py:210-245 | the same by carrier and currency over reconciled shipments |
| BillingPages.NothingReconciledNothingCompared | backend/src/aerogram/billing/repository.py:215-219 | a filter on unreconciled shipments shows no carrier row |
| BillingPages.PagesCoverTheListing | backend/src/aerogram/billing/repository.py:152-155 | pages of one listing skip and repeat nothing |
| BillingPages.PagesAreStableIff | backend/src/aerogram/billing/repository.py:152-155 | every page holds the same shipments for every order of ties if and only if no two different matching shipments of one moment lie on different pages, whichever listing one looks at |
| BillingPages.OnePageIsStable | backend/src/aerogram/billing/repository.py:152-155 | so a list that fits on one page is stable whatever ties it has |
| BillingPages.ListingIsUniqueIff | backend/src/aerogram/billing/repository.py:152-152 | the whole listing is determined if and only if no two matching shipments were created at one moment |
| RecipientImport.DetectHeader | backend/src/aerogram/bulk/importing.py:172-188 | the delimiter with the most known columns, the earlier of equals, none if none is known; raises exactly when a cell is beyond the reader's limit under some delimiter |
| ImportLaws.WhichDelimiter | backend/src/aerogram/bulk/importing.py:172-188 | of delimiters under which as many columns are known the tab comes first, then the semicolon, then the comma |
| ImportLaws.WhenTheHeaderRaises | backend/src/aerogram/bulk/importing.py:172-188 | the search for a header raises if and only if a cell of the line has more than 131072 characters under one of the three delimiters |
| RecipientImport.ParseLines | backend/src/aerogram/bulk/importing.py:210-226 | the loop over lines equals the reading line by line |
| ImportLaws.WhatALineSays | backend/src/aerogram/bulk/importing.py:210-226 | by the text of the line: nothing for white space, a row of the trimmed texts before and after the first semicolon when both say something, and one error otherwise |
| RecipientImport.ParseTable | backend/src/aerogram/bulk/importing.py:229-280 | the same over the records below a header; raises exactly when some record raises |
| ImportLaws.WhichRecordsSpeak | backend/src/aerogram/bulk/importing.py:229-245 | a record is passed over if and only if every cell of it is white space; one with a cell beyond the reader's limit raises |
| ImportLaws.WhatARecordSays | backend/src/aerogram/bulk/importing.py:229-280 | by its number cells: a NaN raises, each other bad number is an error of its own, the weight's first, and with two good ones it is a row unless it lacks both an address and a key |
| ImportLaws.WhatAnAddressIs | backend/src/aerogram/bulk/importing.py:243-250 | its own cell, or the parts that there are of street, house and flat in one line |
| ImportLaws.DigitsAreKept | backend/src/aerogram/bulk/importing.py:283-288 | an INN is the digits of its cell, in order, or nothing |
| RecipientImport.ParseRecipients | backend/src/aerogram/bulk/importing.py:191-207 | the form the first line decides, the whole reading, and exactly when it raises, for every text |
| ImportLaws.WhatDecidesTheForm | backend/src/aerogram/bulk/importing.py:198-207 | the first line that is not white space decides: a list of lines when there is none or no delimiter makes a column of it known, else a table whose records begin behind it |
| ImportLaws.MarksAreTakenOff | backend/src/aerogram/bulk/importing.py:198-198 | byte order marks are taken from the front, all of them and nothing else |
| ImportLaws.EndsAreUnified | backend/src/aerogram/bulk/importing.py:198-198 | every end of a line, of one character or two, is one line feed |
| ImportLaws.SplittingIsExact | backend/src/aerogram/bulk/importing.py:198-198 | the lines written one after another with line feeds are the text, and no line holds one |
| ImportLaws.WhatStrippingDoes | backend/src/aerogram/bulk/importing.py:149-151 | white space is taken from both ends and nowhere else; a text of nothing else is no text |
| CsvReader.RecordsCoverTheLines | backend/src/aerogram/bulk/importing.py:232-236 | the records of a table share out its lines: each line is in exactly one |
| CsvReader.LinesAreRecordsIff | backend/src/aerogram/bulk/importing.py:232-236 | every line is a record of its own if and only if no line but the last leaves a quotation open, each taken by itself |
| CsvReader.WrittenCellsAreReadBack | backend/src/aerogram/bulk/importing.py:235-235 | a row of cells, quoted where they hold marks or delimiters, is read back cell by cell |
| CsvReader.CellOverTwoLines | backend/src/aerogram/bulk/importing.py:232-236 | a quoted cell goes on over the end of a line, which belongs to it, and the two lines are one record |
| ImportAccount.NoNumberDisappears | backend/src/aerogram/bulk/importing.py:13-16 | every line of the plain form and every record of a table that says something has exactly one row or at least one error with its number, never both; row numbers increase |
| ImportAccount.NothingIsInvented | backend/src/aerogram/bulk/importing.py:191-280 | every row and error has the number of a line or record that says something |
| ImportAccount.NumbersAreLinesIff | backend/src/aerogram/bulk/importing.py:109-111 | the numbers of a table are those of its lines if and only if no line but the last leaves a quotation open |
| ImportAccount.PlainTableKeepsItsLines | backend/src/aerogram/bulk/importing.py:109-111 | so they are in every table without quotation marks |
| ImportAccount.StrayQuoteDropsTheRest | backend/src/aerogram/bulk/importing.py:13-16 | behind a quotation that no later line closes, no line has a row or an error |
| ImportAccount.StrayQuoteLosesB | backend/src/aerogram/bulk/importing.py:13-16 | an input that shows it |
| ImportAccount.WrittenRowIsReadBack | backend/src/aerogram/bulk/importing.py:229-272 | a row written under the header, quoted or plain, is read under its own number with every cell in the field of its own column |
| ImportAccount.WrittenLineIsReadBack | backend/src/aerogram/bulk/importing.py:210-226 | a written pair of city and address is read back; later separators belong to the address |
| ImportAccount.ReadingRaisesIff | backend/src/aerogram/bulk/importing.py:154-169 | the list is read if and only if no number in it is a NaN and no cell is beyond the reader's limit |
| ImportAccount.NanLosesTheList | backend/src/aerogram/bulk/importing.py:163-169 | an input that shows it |
| ImportMatching.ImportRows | backend/src/aerogram/bulk/service.py:153-272 | one preview per row, in order, if and only if no row is refused; otherwise the exception of the first that is |
| ImportMatching.RefusedIff | backend/src/aerogram/bulk/service.py:188-320 | a row raises if and only if its weight or value is infinite or too large, or it has no key and a cell outside the address schema, or its key finds one counterparty with a usable address outside it |
| ImportLaws.WhyALineRaises | backend/src/aerogram/bulk/service.py:188-320 | and with which exception: of its weight, else of its value, else of an address outside the schema |
| ImportMatching.KeyedRowsRaiseByCargoOnly | backend/src/aerogram/core/models.py:221-231 | addresses within the columns of the book fit the schema, so a row with a key raises by its cargo only |
| ImportMatching.OneCellFailsTheList | backend/src/aerogram/shared/money.py:112-120 | inputs of which one anywhere fails the whole list |
| ImportMatching.GramsCoverTheWeight | backend/src/aerogram/bulk/service.py:315-317 | grams never understate the weight and overstate it by less than one, or are the least one |
| ImportLaws.WhatAPreviewSays | backend/src/aerogram/bulk/service.py:188-272 | the whole preview of a line by how many counterparties its key finds and how many usable addresses the only one has |
| ImportLaws.WhatIsSearched | backend/src/aerogram/bulk/service.py:200-216 | the key is the INN, and the name of a row without one |
| ImportLaws.CargoSays | backend/src/aerogram/bulk/service.py:307-320 | its cargo: the least number of grams, of at least one, that covers the weight, and the nearest kopeck, each only where the line names it |
| ImportLaws.WhichAddressesAreOffered | backend/src/aerogram/bulk/service.py:222-262 | the addresses offered are the live ones with a street, a house or a flat, in the named city if a live one is there, each as often as it is in the book |
| ImportLaws.DestinationSays | backend/src/aerogram/bulk/service.py:279-295 | where an address sends: its own fields, and its line from street, house and flat |
| ImportMatching.RecipientsComeFromTheBook | backend/src/aerogram/bulk/service.py:188-272 | a recipient named by a key is sent to a live, usable address of the only counterparty found, in the named city if there is one there |
| ImportMatching.SomeChoiceMakesReadyIff | backend/src/aerogram/bulk/service.py:214-272 | some choice makes a row with a key ready if and only if the key finds exactly one counterparty, with a single usable address or one that has an identifier |
| ImportMatching.ReadyRows | frontend/src/lib/bulkImport.ts:52-74 | ready plus excluded equals the preview rows |
| ImportMatching.ReadyMeansChosenOrOffered | frontend/src/lib/bulkImport.ts:43-49 | a row is ready exactly when the server chose for it or offered what the operator chose, and goes there |
| ImportMatching.ReadyRowsAreTheResolved | frontend/src/lib/bulkImport.ts:52-74 | ready rows keep order and numbers, one for each resolved row and no other |
| ImportLaws.WhatAReadyRowSays | frontend/src/lib/bulkImport.ts:52-74 | a ready row has the weight and the value of its own line, and those of the common cargo where the line named none |
| ImportMatching.ChoiceConcernsOneRow | frontend/src/lib/bulkImport.ts:19-20 | a choice made for one row changes no other |
| ImportMatching.PreviewKeepsLines | backend/src/aerogram/bulk/service.py:166-169 | the preview of a list that was read has increasing line numbers |

## Left out

- Decimals are exact rationals: the 28-digit decimal context and the floating point of the ranking, of the match scores and of a terminal's weight are not modelled, nor the binary rounding of a match score to three decimals.
- The request fingerprint is the canonical request itself: JSON encoding and SHA-256 are taken as injective.
- Routing rules, strategies, the shipment service and the carrier adapters are oracles with stated contracts.
- Routers, request schemas, migrations, row-level security, roles, texts, rendering and transport are not modelled; where a schema guards a service, its guard is the service's precondition.
- Concurrent label orders for one shipment, and two operators setting a default sender at once, are not modelled: these operations are taken as serialised.
- The merged PDF of a list (`merged_labels`) only reads files, and is left out with PDF merging.
- In the synchronisation of a tenant, what ends one account other than a failed fetch or a statement that the database refuses is left out: limits of the driver on the statement and its numbers, lost connections, and two synchronisations at once.
- RefSync.RefSyncService.SyncTenant: says when the transaction is undone, not whether that is raised or, after a refused statement with nothing left to write, passes unnoticed.
- Terminals.TerminalTable.Flush: takes a text as too long even when all of its excess is spaces, which PostgreSQL cuts off instead of refusing.
- Terminals.TerminalTable.Sync: the same holds for its refusal.
- RefSync.RefSyncService.Sync: the same holds for the texts of a city.
- RefSync.TenantSyncCommitsIff: so it speaks of exports without such padding.
- Searches of the address book always answer, even for a name that the database does not take; those of the directory of cities answer for every text that `RefSync.CityFits` admits.
- Document types other than labels, the order of the expiry query, log lines and timestamps that nothing reads are left out.
- The callback for raw carrier calls, which may itself raise, is left out of `Request`.
- The table reader is that of Python's standard library with its default dialect; it is modelled here as the source uses it.
- Character classes, column synonyms, the decimal reader, text normalisation and name similarity are parameters; the normal form of a KLADR code is given with the row.
- Where the decimal arithmetic overflows (a weight of a million digits) is a parameter of the import preview.
- The carrier's name in the totals by carrier follows from its identifier and is left out, with the order of those rows and the percentages.
- Shipment statuses, tracking, outgoing webhooks, authentication and encryption are other components.
- ScoreInputs.RaisingOwnCostNeverHelps: stated for priors with a neutral price index, the only ones the platform produces.
