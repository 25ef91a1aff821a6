# RenQuant orchestrator: a Dafny model

This project models the parts of the orchestrator whose correctness is argued in prose in its docstrings and
protocol documents, and proves those arguments.

- **The backtest engine** (`Prelude`, `Sums`, `FeeScale`, `Ranking`, `Grid`, `Portfolio`, `PortfolioLaws`,
  `Simulation`, `Engine`). A sleeve of crypto pairs is simulated day by day: positions are marked at the open,
  delisted pairs are forced out, forced cash buys BTC, untradeable positions freeze, and on form days the rest is
  rebalanced into at most three picks plus a BTC residue, scaled by a fixed-point loop so that fees are paid out
  of the sleeve. `Engine.Sleeve` is the imperative day loop; `Simulation.Run` is the same engine as a function of
  the day, and the laws are proved about it.
- **Scheduled-job liveness** (`Firings`, `Liveness`): counting launchd firings in an interval and re-judging stale
  verdicts in place.
- **Seat apportionment** (`Apportionment`): largest-remainder seats per sector and the core they select.
- **The freeze record** (`Text`, `JsonDiff`, `FreezeRecord`, `FreezeVerify`): chronological split with a purged
  embargo, structural diff, and generate / verify.
- **Parsers and transforms**: the NUL-framed porcelain v2 parser (`Porcelain`; git-status(1), "Porcelain Format
  Version 2" and "Pathname Format Notes and -z"), the dotted-path config comparison (`ConfigDrift`), the as-of
  panel (`AsOf`), log record framing (`LogRecords`), and `sys.path` insertion (`ImportPath`).
- **The audit aggregator** (`Digest`, `Audit`): fingerprints that survive normalisation, acknowledgements, and the
  exit code.

Money is exact: prices, quantities and shares are `real` or integer, and a missing cell (NaN) is `None`. Pairs,
tickers and sectors are numbered in name order, so "ties by name" is "ties by number". Python's `==` on parsed JSON
identifies `True` with `1`; `JsonDiff.Canonical` says so explicitly.

Where an algorithm mutates state in the source it does here too: the sleeve's holdings and daily series, the result
rows of the scan and of the audit, seats counted up in an array, panel columns, and the module search path. Each
such method is proved equal to a function, and the properties are proved about that function.

## Where the code and its documentation disagree

The model follows the code. Each entry names the lemmas that state where the documented claim holds and where it fails.

- "Invested value = pre-trade value minus fees (exact, no negative cash)" fails in three ways, in exact arithmetic.
  - The eight-step loop leaves a slip. It is bounded (`ExactTargets`, `RebalanceIdentity`). Where targets sum to
    the free value (`NoExcessOutsideTheBand`) it is zero if and only if there is no fee or the loop's last two scales
    trade the same notional (`ExactWhenLastStepTradesTheSame`, `RebalanceIsExactWhen`). Conditions on the inputs
    settle it: while one side outweighs the other throughout, it is zero only without a fee or a trade
    (`LopsidedIsExactOnlyWhenNothingIsCharged`); when no pair changes sides, also if both sides balance
    (`ExactExactlyWhenSidesBalance`). The first rebalance of every run is inexact if and only if there is a fee
    (`FirstRebalanceIsExactOnlyWithoutFees`).
  - The slip can be negative cash: more is spent than there is if and only if there is a fee and the last scale trades
    more than the one before (`OverspendsWhenLastStepTradesMore`, `RebalanceIsExactWhen`). In a first
    rebalance where BTC opens that means an even number of steps (`FirstRebalanceOverspends`), hence every such one at 25
    and 35 basis points and none at 50 (`ProtocolRunsOverspend`). The amounts are far below the resolution of the source's floating point.
  - A rebalance drops value if and only if BTC has no open price and the allocations leave a residue
    (`LosesExactlyWhenBtcHasNoOpen`). A run can lose its whole notional this way (`GapMarketLosesEverything`).
- `scan_job` "never raises": it raises if and only if the property list it looks into is no dictionary, or a judged
  schedule holds, on a visited day, a value that is no integer or no time of day (`ScanRaisesExactlyOnBadInput`,
  `BadHourRaises`, `HourTwentyFourRaises`).
- The core-size assertion after `secbal` holds if and only if there are at least `size` eligible names
  (`CoreHasSizeExactlyWhenNamesSuffice`); the backfill branch adds nothing in either case.
- "A value only appears on/after it was usable" holds on the whole grid if and only if the latest filing did not have
  to be moved back onto it, or moving it changes no value (`PanelIsExactWhen`, `LastBarLooksAhead`).
- A diff with skip paths is exact on all documents if and only if the paths name neither the whole record nor a list
  element without its list (`ExactOnAllDocuments`).
- The drift comparison reports every difference between documents over a set of keys if and only if no two key paths
  share a dotted name (`FaithfulExactlyWhenNamesAreUnique`); nonempty dot-free keys qualify (`NoDriftIffSameTree`). A
  dotted key beside its parts and an empty key do not (`DottedKeyHidesDrift`, `EmptyKeyHidesDrift`). In all cases a leaf
  that spells `<absent>` counts as absent (`AbsentMarkerHidesDrift`).
- "An ack binds to this drift" holds for a summary line if and only if the whole line fits the 200-character detail
  (`DistinguishesExactlyWithinTheLimit`).
- "An ack covers a situation, not a magnitude" holds on texts whose numbers stand clear of dates and home directories
  (`AckCoversOneMagnitude`) and fails for a number that follows a date and a space (`AckMissesNumberAfterDate`).
- "The interpreter's own entries do not keep precedence" holds for every root if and only if no root was on the path
  only from the interpreter's first entry on (`RootsPrecedeExactlyWhenNotBehind`).

## Model

| member | source | states |
|---|---|---|
| FeeScale.SolveScale | scripts/g2_reversal_backtest.py:477-487 | the loop, with its early exit at 1e-14, computes the scale all fee laws below are about |
| FeeScale.TradedLoop | scripts/g2_reversal_backtest.py:479-482 | the running sum is the total distance between scaled targets and current dollars |
| FeeScale.TradedLipschitz | scripts/g2_reversal_backtest.py:479-483 | changing the scale by d changes traded dollars by at most d times the sum of targets |
| FeeScale.NextScaleRange | scripts/g2_reversal_backtest.py:483 | every iterate from a scale in [0, 1] lies in [1 - c - q, 1], q being c when targets sum to the free value |
| FeeScale.NextScaleContracts | scripts/g2_reversal_backtest.py:483 | one step contracts distances by the factor q |
| FeeScale.ScaleFromStep | scripts/g2_reversal_backtest.py:477-487 | from any step size e, after n more steps or an early exit the next step is at most max(q^n e, q 1e-14) |
| FeeScale.ScaleIsFeeConsistent | scripts/g2_reversal_backtest.py:469-492 | the returned scale is in [1 - c - q, 1] and misses "scaled free value = free value - fees" by a bound stated in q |
| FeeScale.ExactTargets | scripts/g2_reversal_backtest.py:469-492 | for targets summing to F and c < 1/2: scale in [1 - 2c, 1], miss at most max(2 c^9, c 1e-14) F |
| FeeScale.ExactSolutionIsNear | scripts/g2_reversal_backtest.py:469-492 | any exact solution of the fee equation is within bound / ((1 - q) F) of the loop's answer |
| FeeScale.ExactWhenLastStepTradesTheSame | scripts/g2_reversal_backtest.py:477-492 | on all inputs the miss is the fee on the difference between what the last step was charged for and what is traded; zero if and only if there is no fee or they agree |
| FeeScale.UnscaledExactlyWhenNothingIsCharged | scripts/g2_reversal_backtest.py:483-486 | the scale stays exactly 1 with no miss if and only if there is no fee or nothing to trade |
| FeeScale.TradedOnSides | scripts/g2_reversal_backtest.py:479-482 | while no pair changes between bought and sold, traded notional is linear in the scale with slope bought minus sold targets |
| FeeScale.ExactExactlyWhenSidesBalance | scripts/g2_reversal_backtest.py:469-492 | then the answer is exact if and only if there is no fee, nothing to trade, or bought and sold targets are equal |
| FeeScale.TradedIsConvex | scripts/g2_reversal_backtest.py:479-482 | between two scales traded notional rises at least as fast as the sides at the lowest scale say, and at most as fast as those at 1 |
| FeeScale.LopsidedIsExactOnlyWhenNothingIsCharged | scripts/g2_reversal_backtest.py:469-492 | even if pairs change sides: while bought targets outweigh sold ones throughout, or sold ones bought ones, the answer is exact if and only if there is no fee or nothing to trade |
| FeeScale.OverspendsWhenLastStepTradesMore | scripts/g2_reversal_backtest.py:477-492 | on all inputs more is spent than there is if and only if there is a fee and the last scale trades more than the one before |
| FeeScale.CashMissAlternates | scripts/g2_reversal_backtest.py:477-492 | from cash alone the miss is c^(n+1) of the free value for n steps, an overspend if and only if c > 0 and n is even |
| FeeScale.ProtocolFees | scripts/g2_reversal_backtest.py:651-656 | from cash the loop takes six steps at 25 and 35 basis points and seven at 50 |
| FeeScale.AllCashIsExactOnlyWithoutFees | scripts/g2_reversal_backtest.py:469-492 | from cash alone the answer is exact if and only if there is no fee |
| Ranking.SortSorted | scripts/g2_reversal_backtest.py:289 | the ranking is ordered by key, then name |
| Ranking.SortedIsUnique | scripts/g2_reversal_backtest.py:345 | only one arrangement of the candidates is ordered, so the result is that of any correct sort |
| Ranking.RankingIgnoresOrder | scripts/g2_reversal_backtest.py:341-346 | picks do not depend on the order in which candidates were listed |
| Ranking.TopIsBest | scripts/g2_reversal_backtest.py:288-290 | top k is min(k, n) distinct scored members and nobody left out ranks before anybody chosen |
| Grid.MaskedBarsContributeNothing | scripts/g2_reversal_backtest.py:228-230 | stores that agree wherever a pair is listed give the same grid, whatever their other bars hold |
| Grid.MedianSplits | scripts/g2_reversal_backtest.py:233-238 | half of the window's observations are at or below the median and half at or above |
| Grid.UniverseBelow | scripts/g2_reversal_backtest.py:273-280 | exactly the non-stablecoin pairs listed on the previous day, in name order |
| Grid.LiquidTierIsMostTraded | scripts/g2_reversal_backtest.py:283-290 | at most ten distinct universe members, each outranking every member with a median that was left out |
| Grid.LiquidTierByDollarVolume | scripts/g2_reversal_backtest.py:233-239 | over closes and volumes: a member's observations are close times volume on the days of the last 30 that have both; it has the larger median than any left-out pair with observations, or the same and the earlier name, and a left-out one means ten members |
| Grid.PicksAreBest | scripts/g2_reversal_backtest.py:332-346 | at most three distinct members with a signal, exactly three on an activating day, none beaten by an unpicked one; `SignalIsReturn` and `PicksByReturn` say the same over closes |
| Grid.SignalIsReturn | scripts/g2_reversal_backtest.py:256-266 | over the rows: a pair is rankable if and only if it has a close and positive volume on t and a nonzero close `lookback` days earlier, and 1 + signal is the ratio of the two closes |
| Grid.PicksByReturn | scripts/g2_reversal_backtest.py:332-346 | over the rows: a pick outdoes every rankable unpicked member in close(t) / close(t - lookback), the higher for momentum and the lower for reversal, ties by name, and then there are three |
| Grid.ActivatesWithThreePicks | scripts/g2_reversal_backtest.py:341-359 | a day activates if and only if it has three picks, and otherwise everybody rankable is picked |
| Grid.MembersByListing | scripts/g2_reversal_backtest.py:268-290 | over the rows: the broad members are the non-stablecoin pairs listed the day before, and the liquid ones are among them |
| Grid.FirstFormIsFirst | scripts/g2_reversal_backtest.py:348-359 | the first form day activates and no earlier visited day does; none is reported only when none does |
| Grid.LastCloseIsLatest | scripts/g2_reversal_backtest.py:319-321 | forward fill gives the close of the latest day through t that has one, and nothing if none has |
| Grid.LastCloseCausal | scripts/g2_reversal_backtest.py:319-321 | the forward-filled close of day t depends on rows through t only |
| Grid.PicksCausal | scripts/g2_reversal_backtest.py:256-346 | medians, tier, signals, picks and activation of day t depend on rows through t only |
| Grid.FirstFormCausal | scripts/g2_reversal_backtest.py:348-359 | the activation search looks at no day it has not reached |
| PortfolioLaws.OpenIdentity | scripts/g2_reversal_backtest.py:381-401 | M(t) is yesterday's post-trade value plus price gains minus the fee on forced exits, exactly |
| PortfolioLaws.OpenKeepsSound | scripts/g2_reversal_backtest.py:383-401 | after the open every held pair is listed and priced with a nonnegative quantity, and forced cash is nonnegative |
| PortfolioLaws.OpenStaysPositive | scripts/g2_reversal_backtest.py:381-401 | a sleeve worth something yesterday is worth something at the open, even if everything was delisted |
| PortfolioLaws.ExitsAtLatestClose | scripts/g2_reversal_backtest.py:383-400 | a held pair leaves if and only if it is not listed, and then at the close of the latest earlier day that has one; the others keep their quantity |
| PortfolioLaws.RedeployIdentity | scripts/g2_reversal_backtest.py:402-411 | without a rebalance the day costs exactly the fee on the BTC bought; all forced cash is spent |
| PortfolioLaws.RedeployBuysOnlyBtc | scripts/g2_reversal_backtest.py:402-411 | forced cash buys BTC at its open, or its last close without one, net of the fee; every other position is unchanged |
| PortfolioLaws.FrozenPlusLoose | scripts/g2_reversal_backtest.py:422-437 | frozen and tradeable positions split the held value with nothing counted twice |
| PortfolioLaws.FreeCoversCurrent | scripts/g2_reversal_backtest.py:437-475 | tradeable positions are worth between 0 and the free value, so the loop's precondition holds |
| PortfolioLaws.TargetsSumToFree | scripts/g2_reversal_backtest.py:458-467 | targets are nonnegative and sum to the free value, at most 1e-9 over it, and only when at least one pick was affordable |
| PortfolioLaws.AllocatedAtMost | scripts/g2_reversal_backtest.py:439-459 | k picks are allocated at most k thirds of the sleeve, whatever the picks |
| PortfolioLaws.PicksShareEqually | scripts/g2_reversal_backtest.py:439-467 | affordable picks get equal dollars, at most a third of M(t) each and exactly a third when nothing is frozen; where it is less BTC gets no residue; no other pair gets anything |
| PortfolioLaws.PlanTargets | scripts/g2_reversal_backtest.py:439-475 | the same for the day's plan; every target but BTC's is a tradeable pick |
| PortfolioLaws.PlanSolvable | scripts/g2_reversal_backtest.py:469-487 | with free value the loop is called within its contract and returns a scale in [0.01, 1] |
| PortfolioLaws.RebalancedValue | scripts/g2_reversal_backtest.py:494-499 | holdings after buying are worth the frozen value plus the scaled targets that had an open price |
| PortfolioLaws.NothingFree | scripts/g2_reversal_backtest.py:483 | with no free value nothing is targeted, traded or charged |
| PortfolioLaws.RebalanceIdentity | scripts/g2_reversal_backtest.py:414-499 | value after trading = M(t) - fees on everything traded + bounded slip - what a missing BTC open drops |
| PortfolioLaws.RebalanceByPair | scripts/g2_reversal_backtest.py:422-499 | pair by pair, over the rows: a pair that is listed, opens and has positive volume ends with the scaled target at its open; any other keeps its quantity and has no target, BTC apart, which an open price alone lets buy |
| PortfolioLaws.FreeIsCashAndTradeable | scripts/g2_reversal_backtest.py:422-437 | the free value is what M(t) holds beside its positions plus the tradeable positions at the open |
| PortfolioLaws.RebalanceIsExactWhen | scripts/g2_reversal_backtest.py:774-777 | the slip in full; with targets summing to the free value and BTC open, value after trading is M(t) minus fees if and only if there is no fee or the last two scales trade the same, and overspends if and only if there is a fee and the last one trades more |
| PortfolioLaws.NoExcessOutsideTheBand | scripts/g2_reversal_backtest.py:458-467 | targets sum to exactly the free value if and only if the allocations fit it or exceed it by more than 1e-9 |
| PortfolioLaws.ResidueWithoutBtcOpen | scripts/g2_reversal_backtest.py:458-467 | without a BTC open its target is exactly what the allocations leave of the free value |
| PortfolioLaws.OnlyBtcIsDropped | scripts/g2_reversal_backtest.py:494-498 | no target other than BTC's can be dropped |
| PortfolioLaws.LosesExactlyWhenBtcHasNoOpen | scripts/g2_reversal_backtest.py:458-498 | a rebalance loses value if and only if BTC has no open price and the allocations total less than the free value |
| PortfolioLaws.NoBtcOpenLosesAllFreeValue | scripts/g2_reversal_backtest.py:458-498 | the failing family: with no BTC open and no executable pick only frozen value is left, a real loss exactly when anything was free |
| PortfolioLaws.RebalanceKeepsSound | scripts/g2_reversal_backtest.py:494-499 | quantities stay nonnegative and every position held after trading has a price |
| PortfolioLaws.FrozenNeverShrinks | scripts/g2_reversal_backtest.py:422-436 | a frozen position survives the rebalance with at least its quantity, and exactly it unless it is BTC |
| PortfolioLaws.RebalanceStaysPositive | scripts/g2_reversal_backtest.py:414-499 | a rebalance that drops nothing leaves a positive sleeve positive |
| Simulation.RunCausal | scripts/g2_reversal_backtest.py:332-500 | two histories that agree through day t give the same form day, M(t), holdings and traded notional on day t |
| Simulation.NoFormUntilFirst | scripts/g2_reversal_backtest.py:348-361 | searching fewer days finds the same day or nothing |
| Simulation.LivePersists | scripts/g2_reversal_backtest.py:366-380 | once started the engine runs every day with the same first form day |
| Simulation.RunFollowsFormDays | scripts/g2_reversal_backtest.py:363-415 | every live day t: it rebalances into the picks of t - 1 if t = first + 1 + k * horizon for some k >= 0 and otherwise redeploys forced cash alone, from the opening that the day before left |
| Simulation.FirstFormDay | scripts/g2_reversal_backtest.py:348-361 | the first form day is the first day in 1 .. n - 3 with three picks, and a member without one never trades |
| Simulation.DayKeepsSound | scripts/g2_reversal_backtest.py:375-499 | one live day keeps holdings sound and balances its books, rebalance or not |
| Simulation.RunIsSound | scripts/g2_reversal_backtest.py:375-499 | every reachable day: sound at the open and after trading, books of the day balanced |
| Simulation.SelfFinancing | scripts/g2_reversal_backtest.py:375-499 | over any run: value = initial notional + all price gains - fee on all traded notional, up to accumulated slip, less dropped residue |
| Simulation.DailyChangeIsGainsMinusFees | scripts/g2_reversal_backtest.py:506-513 | M(t) - M(t - 1) is the gain on post-trade holdings less the previous day's trading fees and today's exit fees |
| Simulation.StaysPositive | scripts/g2_reversal_backtest.py:375-499 | while nothing was dropped, M(t) and the post-trade value are positive on every day |
| Simulation.BtcOpensPreventLoss | scripts/g2_reversal_backtest.py:494-498 | nothing is ever dropped if BTC has an open price on every rebalance day |
| Simulation.FirstPlan | scripts/g2_reversal_backtest.py:439-475 | the first rebalance invests cash alone, with targets summing to exactly the initial notional |
| Simulation.FirstRebalanceIsExactOnlyWithoutFees | scripts/g2_reversal_backtest.py:774-777 | the slip of the first rebalance of any run is zero if and only if there is no fee |
| Simulation.FirstRebalanceOverspends | scripts/g2_reversal_backtest.py:774-777 | where BTC opens, the first rebalance of any run spends more than the notional if and only if there is a fee and the loop takes an even number of steps |
| Simulation.ProtocolRunsOverspend | scripts/g2_reversal_backtest.py:651-656 | so, where BTC opens, it does at 25 and 35 basis points in every run and does not at 50 |
| Simulation.FirstDayCanLoseEverything | scripts/g2_reversal_backtest.py:494-500 | a run that starts without a BTC open or an executable pick turns the initial notional into zero |
| Simulation.GapMarketLosesEverything | scripts/g2_reversal_backtest.py:494-500 | a four-day market with a data gap on which such a run exists, for every admissible fee |
| Engine.Sleeve.constructor | scripts/g2_reversal_backtest.py:363-373 | an empty sleeve with no value and no trade recorded on any day |
| Engine.Sleeve.MarkAndExit | scripts/g2_reversal_backtest.py:376-401 | the in-place open of a day yields the opening of the laws and records its exits on that day only |
| Engine.Sleeve.Redeploy | scripts/g2_reversal_backtest.py:402-411 | forced cash is turned into the BTC quantity of the laws and recorded as traded |
| Engine.Sleeve.Freeze | scripts/g2_reversal_backtest.py:422-437 | finds exactly the untradeable positions and their marked value |
| Engine.Sleeve.Allocate | scripts/g2_reversal_backtest.py:439-455 | the target dictionary holds one third of M(t) for each affordable executable pick and nothing else |
| Engine.Sleeve.ChooseTargets | scripts/g2_reversal_backtest.py:439-467 | crowd-out scaling or BTC residue gives the targets whose sum is proved |
| Engine.Sleeve.CurrentDollars | scripts/g2_reversal_backtest.py:469-475 | current dollars are the marks of the unfrozen positions |
| Engine.Sleeve.Invest | scripts/g2_reversal_backtest.py:494-499 | new holdings are the frozen ones plus each bought quantity |
| Engine.Sleeve.Rebalance | scripts/g2_reversal_backtest.py:414-499 | the whole in-place rebalance reaches the state the identity is proved about |
| Engine.Sleeve.FindFirstForm | scripts/g2_reversal_backtest.py:348-361 | the search loop finds the first activating day below n - 2 |
| Engine.Sleeve.RunDay | scripts/g2_reversal_backtest.py:375-500 | one iteration records M(t) and traded notional of the specified day and touches no other; `RunFollowsFormDays` says on which days that is a rebalance |
| Engine.Sleeve.RunMember | scripts/g2_reversal_backtest.py:297-500 | the imperative simulation records exactly the specified run on every day, whose rebalance days are those of `RunFollowsFormDays`, and ends in its holdings, or reports that the member never activates |
| Engine.IdleBefore | scripts/g2_reversal_backtest.py:366-380 | nothing happens up to and including the form day |
| Engine.LiveFrom | scripts/g2_reversal_backtest.py:366-380 | every day after the form day is live, with that form day |
| Firings.ExpectedFirings | ops/launchd_liveness_scan.py:162-216 | the day-by-entry loop returns the number of (entry, instant) pairs that are due in (since, until], as `CountIsOfDueInstants` says over hours and minutes, or fails on an unsupported key, a value that is no integer, or no time of day |
| Firings.VisitEntry | ops/launchd_liveness_scan.py:199-212 | an entry fires if and only if every constraint agrees and the time is valid; otherwise the first constraint that does not agree decides, skipping if it asks for another integer and raising if it is none |
| Firings.FiresExactlyWhenDue | ops/launchd_liveness_scan.py:199-214 | an entry fires at t if and only if t is the instant of a day on which its constraints hold, at its hour and minute, absent ones read as 0 |
| Firings.CountIsOfDueInstants | ops/launchd_liveness_scan.py:162-216 | the count is the size of the set of (entry, instant) pairs due in (since, until]; it fails exactly for a foreign key, or for a value on a visited day that is no integer or no time of day |
| Firings.WeekdaysCycle | ops/launchd_liveness_scan.py:197-198 | Sundays are 0, and each next day adds one modulo seven |
| Firings.LaterValuesDoNotMatter | ops/launchd_liveness_scan.py:204-210 | once a constraint asks for another integer, no later value of the entry changes the outcome, even one that would raise |
| Firings.SeenStep | ops/launchd_liveness_scan.py:199-214 | one entry on one day adds its one fire time if it is in the interval, and nothing else |
| Firings.CountIsAdditive | ops/launchd_liveness_scan.py:162-216 | counts over (a, b] and (b, c] add up to (a, c], which fails exactly when a part fails |
| Firings.LaterStartCountsFewer | ops/launchd_liveness_scan.py:213-214 | moving the start later never raises the count |
| Firings.ConstraintsCountFewer | ops/launchd_liveness_scan.py:172-183 | adding Weekday, Day or Month keys never raises the count, and fails only if an added value is no integer |
| Firings.SundayIsZeroOrSeven | ops/launchd_liveness_scan.py:200-204 | replacing Weekday 7 by 0 in any entry changes no count |
| Liveness.ScheduleEntries | ops/launchd_liveness_scan.py:146-159 | never an empty list: a schedule without dictionaries is no schedule |
| Liveness.EntriesAreTheDictionaries | ops/launchd_liveness_scan.py:146-159 | a dictionary is one entry, a list has exactly its dictionaries, as often as they occur, and anything else is no schedule |
| Liveness.ScanJob | ops/launchd_liveness_scan.py:267-337 | fresh if and only if the log exists, the schedule is supported and fewer than two firings lie after its last write; stale, no schedule, no log path, no plist and failure each if and only if their own condition |
| Liveness.ScanRaisesExactlyOnBadInput | ops/launchd_liveness_scan.py:271-328 | the scan of a job fails if and only if the plist it reads is no dictionary, or a judged, supported schedule holds a bad value on a visited day |
| Liveness.BadHourRaises | ops/launchd_liveness_scan.py:211-212 | a daily job fails to scan if and only if its hour is no integer in [0, 24) and its log is older than the scan |
| Liveness.HourTwentyFourRaises | ops/launchd_liveness_scan.py:211-212 | two concrete failing jobs: an hour of 24, and an hour that is no number |
| Liveness.StaleStaysStale | ops/launchd_liveness_scan.py:323-336 | on an unchanged disk a stale job is stale at every later scan that does not fail |
| Liveness.NewestSibling | ops/launchd_liveness_scan.py:390-403 | a nonempty neighbour no other one is newer than; none only when there is none |
| Liveness.NewestIsFirst | ops/launchd_liveness_scan.py:390-403 | over the listing: it is the one nonempty file beside the log that no earlier one equals and no other exceeds in modification time |
| Liveness.FindNewest | ops/launchd_liveness_scan.py:392-399 | the directory loop finds that neighbour, the first among equals |
| Liveness.Rejudge | ops/launchd_liveness_scan.py:361-437 | the new verdict of one row, given the owners of its directory |
| Liveness.Corroborate | ops/launchd_liveness_scan.py:340-437 | in place: every row becomes its re-judged verdict against the original rows; if some row raises, those before the first such row are re-judged and the rest untouched |
| Liveness.OnlyLeavesStale | ops/launchd_liveness_scan.py:361-437 | only a stale proxy verdict changes, never to fresh; an `evidence_glob` row is untouched; no other field moves |
| Liveness.CorroborationVerdict | ops/launchd_liveness_scan.py:361-437 | for every stale proxy row, over the listing: ambiguous if and only if another job's log shares the directory; otherwise it is marked newer if and only if the first newest nonempty sibling is newer than the log and shows fewer than two missed firings, and unchanged without such a sibling |
| Liveness.CorroborationRaises | ops/launchd_liveness_scan.py:416-424 | a row raises if and only if it would be judged by a sibling whose interval visits a bad value |
| Liveness.OrderDoesNotMatter | ops/launchd_liveness_scan.py:355-359 | every verdict is independent of the order of the results |
| Liveness.SecondPassIsIdle | ops/launchd_liveness_scan.py:340-437 | corroborating twice is corroborating once |
| Liveness.SiblingMissesNoMore | ops/launchd_liveness_scan.py:416-424 | a sibling newer than a present log never shows more missed firings than the log |
| Liveness.SiblingClaimIsFresh | ops/launchd_liveness_scan.py:411-437 | a sibling claim names a nonempty newer file below the tolerance in a directory with one owner |
| Liveness.CountStatuses | ops/launchd_liveness_scan.py:452-454 | the dictionary holds exactly the statuses that occur, each with its number of rows |
| Liveness.CountsSumToJobs | ops/launchd_liveness_scan.py:452-460 | status counts sum to the number of jobs |
| Liveness.CorroborationMovesOnlyStale | ops/launchd_liveness_scan.py:449-454 | corroboration leaves the counts of fresh and unjudgeable jobs unchanged |
| Apportionment.RemaindersFillTheDeficit | scripts/d3_core_shrink_check.py:289-293 | the seats missing after rounding down are exactly the sum of the remainders, at most one per sector |
| Apportionment.LargestRemainderFirst | scripts/d3_core_shrink_check.py:294-297 | no sector without an extra seat has a better claim than one with |
| Apportionment.ExtraSeatsHaveRemainders | scripts/d3_core_shrink_check.py:294-297 | no extra seat goes to a sector whose quota is whole |
| Apportionment.ExtraSeatsByRemainder | scripts/d3_core_shrink_check.py:294-297 | in integers: a sector rounded up has a larger (supply * size) mod total than one that is not, or the same and the earlier name |
| Apportionment.QuotaRule | scripts/d3_core_shrink_check.py:289-297 | seats sum to size, each within floor and ceiling of its quota, and within supply when names suffice |
| Apportionment.HandOutSeats | scripts/d3_core_shrink_check.py:292-297 | the loop that stops when enough seats are out gives those seats |
| Apportionment.SecBal | scripts/d3_core_shrink_check.py:285-306 | the selection with its backfill computes the core that `CoreFollowsRank` and `CoreIsBalanced` are about |
| Apportionment.CoreFollowsRank | scripts/d3_core_shrink_check.py:286-306 | over the ranking: whoever is in the core, so is every better-ranked name of the same sector; each sector contributes exactly its seats; names ascend |
| Apportionment.CoreIsBalanced | scripts/d3_core_shrink_check.py:298-314 | with enough names: exactly size distinct names, each sector its first members, which `CoreFollowsRank` reads off the ranking, nothing released |
| Apportionment.CoreIsShortWithoutNames | scripts/d3_core_shrink_check.py:303-314 | with too few names the core is every name |
| Apportionment.CoreHasSizeExactlyWhenNamesSuffice | scripts/d3_core_shrink_check.py:313-314 | the size assertion holds if and only if there are at least size eligible names |
| JsonDiff.DiffRecords | scripts/d6_freeze_record.py:367-410 | the walk that appends to one list reports the differences the laws are about |
| JsonDiff.WalkInto | scripts/d6_freeze_record.py:373-407 | each recursive call appends its own differences after those already reported, in order |
| JsonDiff.EveryDriftIsTrue | scripts/d6_freeze_record.py:373-410 | every reported difference is reached from both documents by the keys and positions its path spells, and what it says of the two values there holds |
| JsonDiff.ObjectDrifts | scripts/d6_freeze_record.py:376-387 | the drifts of two objects are exactly those of their unskipped members, a missing side included |
| JsonDiff.ListDrifts | scripts/d6_freeze_record.py:388-405 | equal lists have none; unequal string lists one, with what was removed and added or that only the order changed; lists of other lengths one; the rest those of their elements |
| JsonDiff.ValueDrifts | scripts/d6_freeze_record.py:406-409 | other values drift if and only if they differ, once, with the old value first |
| JsonDiff.EqualErasesEqual | scripts/d6_freeze_record.py:385-407 | documents Python calls equal stay equal after erasing any paths |
| JsonDiff.ObjectsClean | scripts/d6_freeze_record.py:376-384 | two objects are clean exactly when every unskipped key is on both sides and clean |
| JsonDiff.EmptyDiffMeansEqual | scripts/d6_freeze_record.py:373-410 | soundness, any skip set: an empty diff means equality outside the skipped paths |
| JsonDiff.EqualMeansEmptyDiff | scripts/d6_freeze_record.py:373-410 | completeness when no list element is skipped: such equality means an empty diff |
| JsonDiff.DiffIsExact | scripts/d6_freeze_record.py:367-410 | empty diff if and only if equal after erasing skipped and volatile members: missing keys, reorderings and lengths included |
| JsonDiff.ExactNeedsWholeLists | scripts/d6_freeze_record.py:388-403 | for every skip set that names a list element but neither its list nor the whole record, two documents break the equivalence |
| JsonDiff.ExactOnAllDocuments | scripts/d6_freeze_record.py:367-410 | the skip sets for which the diff is exact on all documents: if and only if they name neither the whole record nor a list element without its list |
| JsonDiff.BooleanAndNumberAreTheSame | scripts/d6_freeze_record.py:406-407 | `true` rewritten as `1` is not drift |
| FreezeRecord.SplitPartitionsUnion | scripts/d6_freeze_record.py:190-216 | tuning, embargo, evaluation concatenate to the union; tuning is its larger half; a nonempty evaluation has a full embargo |
| FreezeRecord.ForwardWindowEndsBeforeEvaluation | scripts/d6_freeze_record.py:193-203 | an h-session window of a tuning date, h at most the embargo, ends before any evaluation date |
| FreezeRecord.AmongConcatenates | scripts/d6_freeze_record.py:279-284 | filtering ascending dates by three consecutive classes loses and reorders nothing |
| FreezeRecord.SplitOrdered | scripts/d6_freeze_record.py:204-205 | the three classes cover the union and each lies wholly before the next |
| FreezeRecord.HorizonPartition | scripts/d6_freeze_record.py:279-294 | the per-horizon intersections partition that horizon's kept dates, in order |
| FreezeVerify.FillHorizons | scripts/d6_freeze_record.py:279-294 | the loop fills one member per horizon, whose lists `RecordListsSessions` reads back |
| FreezeVerify.BuildFailsExactlyWhen | scripts/d6_freeze_record.py:116-262 | building fails if and only if the database is missing, a horizon is unsupported or the embargo is negative |
| FreezeVerify.RecordPartitionsHorizon | scripts/d6_freeze_record.py:262-294 | the three intersections of a built horizon are its unexcluded sessions, in order; `RecordListsSessions` finds them in the record |
| FreezeVerify.RecordListsSessions | scripts/d6_freeze_record.py:279-294 | read from the built JSON by key: for each horizon the "ids" under tuning, embargo and evaluation concatenate to the unexcluded sessions; every "n" is its list's length; first and last are theirs |
| FreezeVerify.StoredTuningPrecedesEvaluation | scripts/d6_freeze_record.py:190-216 | read from the built JSON: an id under any "tuning" lies in the first ceil(n/2) dates of the union and more than the embargo before every id under any "evaluation" |
| FreezeVerify.RecordSaysHowItWasSplit | scripts/d6_freeze_record.py:343-351 | the split section holds the sizes of the three ranges of the union, the embargo asked for and its dates |
| FreezeVerify.RecordSaysWhatWasExcluded | scripts/d6_freeze_record.py:335-357 | the excluded ids of a horizon are its sessions in the window or named, in order, its count is theirs, and the cutoff is the last kept session |
| FreezeVerify.RecordIdentifiesSource | scripts/d6_freeze_record.py:328-333 | the source section holds the path, hash, size and modification time of the database |
| FreezeVerify.TuningNeverTouchesEvaluation | scripts/d6_freeze_record.py:199-203 | across horizons too, a tuning and an evaluation session are more than the embargo apart |
| FreezeVerify.ArgsRoundTrip | scripts/d6_freeze_record.py:427-444 | a built record gives back its arguments, the excluded sessions as a sorted set |
| FreezeVerify.StoredBuildsSame | scripts/d6_freeze_record.py:433-444 | rebuilding from the stored arguments gives the very same record |
| FreezeVerify.VerifyAcceptsOverrides | scripts/d6_freeze_record.py:500-537 | generate then verify at any later time reports no drift, also against a byte-identical database copy or an artifacts root that holds the same files |
| FreezeVerify.VerifyAcceptsUnchanged | scripts/d6_freeze_record.py:500-537 | its case without overrides: unchanged inputs verify clean at any later time |
| FreezeVerify.VerifyAcceptsCopy | scripts/d6_freeze_record.py:510-537 | its case of a copied database: only the path and modification time of the source are exempt |
| FreezeVerify.OverrideDrift | scripts/d6_freeze_record.py:510-530 | under such overrides every remaining difference is the place or the modification time of an artifact |
| FreezeVerify.MovedArtifacts | scripts/d6_freeze_record.py:520-530 | the artifacts section of two roots with the same files differs only there |
| FreezeVerify.CleanMeansSameInputs | scripts/d6_freeze_record.py:500-537 | the converse of generate-then-verify, with or without overrides: no drift against other inputs means the same database hash and size, the same tuning and evaluation sessions and artifacts of the same content |
| FreezeVerify.CleanMeansSameSessions | scripts/d6_freeze_record.py:500-537 | its case without overrides |
| Porcelain.RunParser | scripts/git_status_porcelain.py:45-88 | the index loop, advancing by one or two, returns what the grammar gives, with the same errors |
| Porcelain.SplitUndoesJoin | scripts/git_status_porcelain.py:54-58 | a bounded split recovers the fields when only the last may hold spaces |
| Porcelain.JoinUndoesSplit | scripts/git_status_porcelain.py:54-58 | joining a bounded split gives the token back, and no field but the last holds a space |
| Porcelain.ParserInvertsPrinter | scripts/git_status_porcelain.py:35-88 | parsing the printed stream of any records with NUL-free paths returns one entry each, with its kind, status, path and, for renames alone, original path |
| Porcelain.PrintedForm | scripts/git_status_porcelain.py:45-83 | the printed form the round trips are about: each record kind with its literal tag, fields and path, and the original path of a rename as a token of its own |
| Porcelain.HeadRecord | scripts/git_status_porcelain.py:52-87 | a stream that parses starts with all tokens of exactly one valid record |
| Porcelain.PrinterInvertsParser | scripts/git_status_porcelain.py:45-88 | whatever parses prints back to the same tokens, each consumed once and in order, stray empties aside |
| Porcelain.RefusesFirstBadToken | scripts/git_status_porcelain.py:54-87 | after any valid records, the first token with too few fields, without its origPath or of an unknown kind decides the error, whatever follows |
| Porcelain.StraysDoNotMatter | scripts/git_status_porcelain.py:84-85 | dropping stray empty tokens changes neither result nor error |
| ConfigDrift.FlattenLoop | ops/pinned_config_drift_probe.py:98-117 | the recursive loop that fills and merges dictionaries builds the flat view |
| ConfigDrift.Compare | ops/pinned_config_drift_probe.py:186-191 | the comparison reports the drifts the laws are about, in path order |
| ConfigDrift.DriftsAreTheDifferences | ops/pinned_config_drift_probe.py:187-191 | exactly the names shown with unequal values are reported, once each, in order, pinned value first, `<absent>` for a name not shown |
| ConfigDrift.ShortDocuments | ops/pinned_config_drift_probe.py:90-117 | only keys starting with an underscore are documentation; a dot joins a nested key to the one above |
| ConfigDrift.NoDriftMeansSameView | ops/pinned_config_drift_probe.py:186-191 | no drift if and only if every path, present or not, shows equal values |
| ConfigDrift.ExtendInjective | ops/pinned_config_drift_probe.py:110 | different paths of nonempty dot-free keys have different dotted names below any prefix |
| ConfigDrift.LeafIsInView | ops/pinned_config_drift_probe.py:98-117 | where names are unique, a dotted name is in the flat view exactly when a leaf has it, with that leaf's value |
| ConfigDrift.NoDriftMeansSameLeaves | ops/pinned_config_drift_probe.py:186-191 | where names are unique, no drift if and only if both documents show the same leaf at every key path |
| ConfigDrift.PruneKeepsLeaves | ops/pinned_config_drift_probe.py:90-117 | removing documentation keys and emptied objects keeps every visible leaf and adds none |
| ConfigDrift.ValuesDetermineTree | ops/pinned_config_drift_probe.py:98-117 | trees without empty objects are determined by their leaves |
| ConfigDrift.FaithfulWhereNamesAreUnique | ops/pinned_config_drift_probe.py:186-191 | over keys whose paths have unique names, no drift if and only if the documents prune to the same tree |
| ConfigDrift.FaithfulExactlyWhenNamesAreUnique | ops/pinned_config_drift_probe.py:90-117 | the vocabularies on which that holds for all pairs of documents: if and only if no two key paths share a dotted name |
| ConfigDrift.SharedNameHidesDrift | ops/pinned_config_drift_probe.py:110 | for any two paths with one name, a leaf moves from one to the other unreported |
| ConfigDrift.NoDriftIffSameTree | ops/pinned_config_drift_probe.py:90-117 | on nonempty dot-free keys, no drift if and only if the two documents are the same tree after that removal |
| ConfigDrift.DottedKeyHidesDrift | ops/pinned_config_drift_probe.py:107-114 | below any visible keys, a key with a dot can be traded for two nested keys unreported, unless a half would be documentation or a top-level first half is empty |
| ConfigDrift.EmptyKeyHidesDrift | ops/pinned_config_drift_probe.py:110 | at the top level the object under an empty key can be traded for its members unreported |
| ConfigDrift.DottedKeysShareNames | ops/pinned_config_drift_probe.py:110 | a vocabulary with x, y and "x.y" has no unique names |
| ConfigDrift.EmptyKeySharesNames | ops/pinned_config_drift_probe.py:110 | neither has one with the empty key |
| ConfigDrift.OneKeyHasUniqueNames | ops/pinned_config_drift_probe.py:110 | over a single key, dotted or not, names are unique if and only if it is nonempty |
| ConfigDrift.AbsentMarkerHidesDrift | ops/pinned_config_drift_probe.py:189 | in any object a leaf spelling the absent marker can be added under a new key unreported |
| AsOf.AsOfPanel | scripts/fundamentals_scan.py:258-277 | one column per symbol, each its filings' panel |
| AsOf.PanelColumn | scripts/fundamentals_scan.py:268-276 | placing, last-wins and forward fill in one array compute the column |
| AsOf.FillForward | scripts/fundamentals_scan.py:276 | in-place forward fill |
| AsOf.UsableInOrder | scripts/fundamentals_scan.py:268-272 | filings known later are placed no earlier |
| AsOf.PanelStep | scripts/fundamentals_scan.py:271-276 | a later filing changes exactly the bars from its place on |
| AsOf.PanelIsLatestUsable | scripts/fundamentals_scan.py:258-277 | before the last bar the panel is the value of the latest filing usable by then |
| AsOf.ShownWasKnown | scripts/fundamentals_scan.py:261-263 | a shown filing was known at the bar `lag` sessions earlier |
| AsOf.FutureFilingsDoNotMatter | scripts/fundamentals_scan.py:258-277 | filings known after a bar before the last cannot change it |
| AsOf.LastBarShowsLatest | scripts/fundamentals_scan.py:272 | the last bar shows the latest filing, usable or not |
| AsOf.PanelIsExactWhen | scripts/fundamentals_scan.py:258-277 | the documented meaning holds on every bar if and only if the latest filing fits the grid or the latest one that does carries its value |
| AsOf.PushedBeyondTheGrid | scripts/fundamentals_scan.py:271-272 | a filing is usable only beyond the grid if and only if it was not yet known `lag` bars before the last |
| AsOf.LastBarLooksAhead | scripts/fundamentals_scan.py:272 | the failing family: a filing usable only beyond the grid, by its date or by the lag alone, is shown on the last bar |
| Digest.SuffixSurvives | ops/audit_finding_disposition.py:63-66 | a tail that starts with a stopping character and offers no match passes a substitution unchanged |
| Digest.PlainPrefixIsKept | ops/audit_finding_disposition.py:63-71 | text without digits and slashes is kept and holds no number |
| Digest.StampIsMasked | ops/audit_finding_disposition.py:59-64 | a date with its time of day becomes one <DATE> and none of its digits is a number |
| Digest.HomeIsMasked | ops/audit_finding_disposition.py:60-65 | a home directory becomes one <HOME>, up to the next slash or space |
| Digest.NumberIsMasked | ops/audit_finding_disposition.py:66-71 | a number that runs into no date becomes one <N> and is the next of the numbers |
| Digest.LettersByTable | ops/strategy_config_primary_parity.py:390-391 | the digest alphabet: 0123456789abcdef becomes ghijklmnopabcdef, place by place |
| Digest.LettersInjective | ops/strategy_config_primary_parity.py:390-391 | different hex digests have different letter digests |
| Digest.DigestSurvives | ops/strategy_config_primary_parity.py:360-393 | after all three substitutions the line still ends with its digest |
| Digest.DifferentDigestsDiffer | ops/strategy_config_primary_parity.py:366-370 | lines within the detail limit with different digests never normalise alike |
| Digest.LongLinesCollide | ops/ops_audit.py:388-389 | for every preview that overruns the limit two different digests leave the same detail |
| Digest.DistinguishesExactlyWithinTheLimit | ops/ops_audit.py:388-389 | a line tells any two digests apart after normalisation if and only if preview, marker and 16 letters fit 200 characters |
| Digest.TemplateAndDigitsDetermine | ops/audit_finding_disposition.py:66-71 | a text that does not spell the digit mark is determined by its template and its digits |
| Digest.NumbersPinMagnitudes | ops/audit_finding_disposition.py:26-28 | two legible texts have one normal form and the same numbers if and only if they agree outside dates and home directories |
| Digest.PlainTextIsLegible | ops/audit_finding_disposition.py:63-71 | a text with no date, home directory or mark is legible, and its numbers are all its digits |
| Digest.NumberAfterDateIsUnseen | ops/audit_finding_disposition.py:59 | a number behind a date and a space is in neither the normal form nor the numbers, whatever it is |
| Audit.RunAudit | ops/ops_audit.py:406-446 | rows dispositioned in place and the exit code derived from their counts |
| Audit.Dispose | ops/ops_audit.py:416-425 | no other row changes; a finding is silenced if and only if an unexpired acknowledgement recorded its numbers or none, and otherwise says which of the three failed |
| Audit.CountStatuses | ops/ops_audit.py:427-437 | the two totals that decide the exit are those of the rows |
| Audit.RowsReportMembers | ops/ops_audit.py:344-389 | each row says why its member gave no verdict or what it said, in the first 200 characters of the last error line of a crash or else the first line; INFO if and only if a covered finding |
| Audit.FingerprintIsOfMemberAndForm | ops/audit_finding_disposition.py:74-75 | behind a hash without collisions two fingerprints agree if and only if member and normal form do |
| Audit.HarnessMeansNoVerdict | ops/ops_audit.py:430-435 | exit HARNESS if and only if some member reached no verdict, whatever the ledger and the date |
| Audit.QuietMeansAllAcked | ops/ops_audit.py:436-442 | otherwise exit OK if and only if every finding is acknowledged, unexpired and unchanged |
| Audit.MoreAcksNeverRaise | ops/ops_audit.py:416-442 | adding ledger keys never raises the exit |
| Audit.LaterIsNeverQuieter | ops/audit_finding_disposition.py:85-88 | a finding that is loud today is loud on every later day, and the exit never falls |
| Audit.CountsSumToMembers | ops/ops_audit.py:427-429 | status counts sum to the number of members |
| Audit.AckCoversOneState | ops/audit_finding_disposition.py:74-75 | two parity states within the limit are never hashed from the same text |
| Audit.AckCoversOneMagnitude | ops/audit_finding_disposition.py:89-96 | among legible texts of one normal form a current acknowledgement that recorded numbers covers exactly those that agree outside dates and home directories |
| Audit.AckMissesNumberAfterDate | ops/audit_finding_disposition.py:26-29 | a number behind a date may become any other without changing the disposition |
| LogRecords.DistinctDates | ops/log_attribution.py:65-72 | exactly the real dates of the name, each once |
| LogRecords.FilenameDates | ops/log_attribution.py:65-72 | the loop collects those dates in order of appearance |
| LogRecords.FrameStep | ops/log_attribution.py:126-133 | each of the three cases of the pass keeps every day's record bodies equal to the lines it owns |
| LogRecords.FrameRecords | ops/log_attribution.py:124-133 | one pass frames the file: bodies by day are the lines owned by that day, the rest are orphans and blanks |
| LogRecords.LinesForDate | ops/log_attribution.py:93-154 | the status and lines of a day, refusals included |
| LogRecords.AttributionSaysWhy | ops/log_attribution.py:93-154 | over the name's dates and the lines: by file name if and only if the day is its only date, by timestamp if and only if it has none and a line is stamped, and otherwise nothing |
| LogRecords.LeadingLines | ops/log_attribution.py:126-133 | the orphans are the lines without an owner that are not blank, and the other leading lines the blank ones |
| LogRecords.OwnerIsStamped | ops/log_attribution.py:121-123 | a line belongs to its nearest preceding timestamp, or to none when there is none |
| LogRecords.LinesAreConserved | ops/log_attribution.py:115-154 | over days covering every timestamp, returned lines, orphans and leading blanks are exactly the file's lines |
| LogRecords.DaysPartitionPositions | ops/log_attribution.py:148 | each day returns the lines at its own positions, in order, and two days share no position |
| LogRecords.NamedFileServesOneDay | ops/log_attribution.py:108-113 | asked about any distinct days, a file named for one date returns each line once if that date is among them and nothing otherwise |
| LogRecords.NothingReturnedTwice | ops/log_attribution.py:93-154 | whatever the file, no distinct days together return a line more often than the file holds it |
| ImportPath.InsertionIndex | ops/import_resolution_check.py:148-170 | every entry before it is the caller's, and the entry at it is the interpreter's |
| ImportPath.Resolution.Ensure | ops/import_resolution_check.py:179-217 | the first call splices the roots in, every later call changes nothing |
| ImportPath.Resolution.InsertRoots | ops/import_resolution_check.py:202-211 | inserting at the moving index puts the new roots, in repository order, between prefix and suffix |
| ImportPath.Resolution.FindInsertionIndex | ops/import_resolution_check.py:163-170 | the loop stops at the first interpreter entry |
| ImportPath.AdditionsAreNew | ops/import_resolution_check.py:203-211 | no addition repeats an entry or another addition, and every existing candidate is covered |
| ImportPath.AdditionsAreRoots | ops/import_resolution_check.py:203-212 | exactly the missing roots are added, `src` if it exists and the checkout only otherwise, in repository order |
| ImportPath.CheckoutYieldsToSrc | ops/import_resolution_check.py:205-206 | a checkout whose `src` exists is on the new path only if it was on the old one or is another repository's root |
| ImportPath.InsertionKeepsEntries | ops/import_resolution_check.py:202-211 | no old entry is lost or reordered, nothing new repeats one, every chosen root is present |
| ImportPath.FirstMatchIsFirst | ops/import_resolution_check.py:189-191 | lookup finds the first entry that has the module, or none has it |
| ImportPath.Precedence | ops/import_resolution_check.py:152-155 | a caller entry still wins; otherwise a new root beats every interpreter entry; otherwise the old answer stands |
| ImportPath.RootsPrecedeExactlyWhenNotBehind | ops/import_resolution_check.py:189-191 | every root comes before the interpreter's entries if and only if none was on the path only from the first of them on |
| ImportPath.InsertionIsIdempotent | ops/import_resolution_check.py:192 | inserting again adds nothing, even without the once-only flag |

## Left out

Contracts that say less than the source, or under more conditions:

- Simulation.SelfFinancing: fees range over [0, 0.4999999999], where the protocol uses at most 0.005; closer to one half the
  1e-9 crowd-out tolerance can push the lower bound of the scale to zero. It needs positive prices, a close with every
  open, and a BTC close by the first execution day, where the source would compute with NaN; a missing BTC open is not
  excluded but accounted for.
- Simulation.StaysPositive: assumes nothing was dropped; `BtcOpensPreventLoss` gives a condition on the prices.
- Grid.PicksCausal: a zero base price counts as unrankable, where pandas would rank an infinite return; valid grids have
  no such price.
- Engine.Sleeve.RunMember: the edge-case counters, names per day and the turnover series are not recorded; they are
  tallies of branches whose effect on holdings and value is modelled.
- Apportionment.QuotaRule: shares are exact fractions; the source's floating-point quotas may round across a whole
  number.
- Liveness.ScanRaisesExactlyOnBadInput: a `StandardOutPath` that is not a string is not representable, and file-system
  errors while a glob is resolved are not modelled.
- Liveness.Corroborate: the prose appended to `detail` is not modelled; a second pass would append it again to rows
  that stay stale.
- FreezeVerify.VerifyAcceptsOverrides: writing a record as JSON text and reading it back is taken to be the identity, and
  path texts are taken as already normalised.
- JsonDiff.DiffRecords: a change carries its values, not the shortened text printed for it; NaN is not a JSON value here.
- AsOf.PanelIsLatestUsable: filings with equal `known_ts` are taken in the order the sort left them, and values are
  present, since missing ones are dropped when a frame is emitted.
- Digest.DigestSurvives: `\d` and `\s` are the ASCII classes, and any preview text stands for the tags.

Not modelled:

- Floating-point rounding, everywhere.
- Reading parquet stores, seals, plists, directories, git, launchctl, SQLite and ledgers: their results are
  parameters. Path normalisation and symbolic links are part of those parameters.
- SHA-256 and the canonical JSON it hashes; fingerprints are compared before hashing. `ack_expiry` is not part of this
  model and is a parameter.
- Regular expressions that recognise dates in log lines and file names, and UTF-8 decoding with surrogate escapes:
  decoded characters and recogniser results are parameters.
- The calendar: day of month and month are functions of a day number; local-time changes are ignored.
- `run_baseline`, `mbb_indices`, `politis_white_block_length` and the max-t study: a single position and index arithmetic
  around library randomness.
- The choice of the runtime root and the already-imported modules of the import check.
- Detail texts of members that did not run, rendering, alert delivery and command lines.
- Freshness tables, frontier statuses, hash-pin and watchlist comparisons elsewhere in the repository: each is a single
  branch or set comparison with no state to reason about.
