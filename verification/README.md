# CryptoTrade OS: verified accounting, backtests and state machines

Dafny models of the parts of the CryptoTrade OS API that compute with money, prices and time or that
keep rows under a protocol, with proofs of what they promise.

- `TradeMatcher.dfy`, `TradeMatcherLaws.dfy`: exchange fills become round-trip trades under
  weighted-average position accounting with an epsilon. Every amount bought or sold is found again in a
  trade, in the open position or in a bounded residue.
- `Indicators.dfy`, `Signals.dfy`, `Simulator.dfy`, `SimulatorLaws.dfy`: moving average, Wilder's RSI and
  Donchian channel, the three strategy templates, and the one-position simulator with fees.
- `Calendar.dfy`, `ReportPeriod.dfy`: UTC day, week and month periods over the date arithmetic of
  ECMA-262 edition 5.1 (sections 15.9.1.2 to 15.9.1.6, 15.9.1.12 and 15.9.4.3), including the remapping of the
  years 0 to 99 by `Date.UTC`.
- `PatternDetector.dfy`, `Correlation.dfy`: bucketing by time of day, the weakest bucket, and Pearson's
  correlation.
- `BinanceKlines.dfy`: the paged walk over historical candles against one simple query.
- `Billing.dfy`: Stripe webhook deliveries that repeat, fail and are retried.
- `Slugs.dfy`, `Workspaces.dfy`, `WorkspacesLaws.dfy`, `WorkspacesService.dfy`: slugs, memberships and
  invitations over whole runs of requests.
- `Options.dfy`: optional values, rounding and quotients used by several modules.

Loops and in-place updates are methods and classes, each proved equal to a function of its inputs or of the
old state; the lemmas then say what that function means, in sums, dates, orders and rows rather than in its own
terms. JavaScript numbers are reals, and rounding to two decimals is applied where the code applies it.
`localeCompare` is given by an arbitrary real sort key, lower-casing and the square root are parameters with the
property that is used of them, and a fresh row id is the next value of a counter. `Math.round`, `Math.ceil`, `Date`
getters and regular expressions are written out.

Where the code does not do what its comments say, or only under a condition, the code is modelled:

- `simulator.ts:11` calls a trade's `pnlPercent` net of both fees; it nets the exit fee only
  (`SimulatorLaws.TradePercent`), which is the same exactly when there is no fee
  (`SimulatorLaws.NetOfBothFeesExactly`, `SimulatorLaws.HalfReported`).
- The reported drawdown misses larger falls exactly when the fee, which the validation does not limit, is above 100
  percent (`Simulator.SimulatedDrawdownExactly`, `Simulator.FeeOfTwoHundredPercent`).
- A moving average with a whole negative period, which the validation of parameters lets through, reads bars that
  are still to come (`Signals.NoLookAheadExactly`), and a channel over no bars turns its flag at every bar
  (`Signals.DonchianBlinks`). With a negative period the relative strength index compares the first close with
  zero (`Indicators.RsiMirrorExactly`).
- A report period contains its reference, and a week starts on a Monday, exactly when the reference's year is not one
  of 0 to 99, and the month before January of year 100 is not the preceding one (`ReportPeriods.DailyContains`,
  `ReportPeriods.WeekStartsMonday`, `ReportPeriods.PreviousMonth`, `ReportPeriods.YearFiftyMissed`,
  `ReportPeriods.YearFiftyWeekOverlaps`, `ReportPeriods.JanuaryHundredMissed`).
- The table of candle intervals is an object, so the names that every object inherits pass as timeframes
  (`BinanceKlines.InheritedAreFetched`).
- `billing.service.ts:294-297` finds nothing to reconcile after a repeated run of a handler; that holds exactly while
  the rows still reflect the event (`Billing.LateRetryExactly`), and an update that came between and says something
  else is taken back (`Billing.LateRetryOfUpdate`, `Billing.UpgradeLost`).
- The candle that opens exactly at `to` is returned unless the pages before it fill up exactly
  (`BinanceKlines.AnswerContains`).
- The service method refuses a role change of the only owner even when the new role is OWNER
  (`WorkspacesLaws.RoleChangeRefusedExactly`). No request reaches it with that role, as `invitable-role.ts:7-11` leaves
  OWNER out; so nobody but its creator ever owns a workspace (`WorkspacesLaws.OwnerIsCreator`).
- Fills that tie on time and id are kept in their order of arrival, and then that order can change the result
  (`TradeMatcherLaws.TiesCanMatter`).

## Model

| member | source | states |
|---|---|---|
| TradeMatcher.MatchFillsToTrades | apps/api/src/modules/exchanges/trade-matcher.ts:40-102 | the nested loops over one position object updated in place, for any fills and any collation, produce the trades that the laws below are about |
| TradeMatcher.MatchFill | apps/api/src/modules/exchanges/trade-matcher.ts:45-84 | the inner loop for one fill leaves the position and closes the trades of `Absorb`, and ends |
| TradeMatcher.Match | apps/api/src/modules/exchanges/trade-matcher.ts:51-84 | one round keeps a held position above the epsilon and strictly lowers the number of rounds still needed |
| TradeMatcher.RoundsLeft | apps/api/src/modules/exchanges/trade-matcher.ts:51 | a fill never needs more than two rounds, and none exactly when what remains is within the epsilon |
| TradeMatcher.Absorb | apps/api/src/modules/exchanges/trade-matcher.ts:51-84 | after any fill a held position is still above the epsilon, and at most one trade was closed |
| TradeMatcher.SortFills | apps/api/src/modules/exchanges/trade-matcher.ts:41 | the fills come out in (time, id) order and are the same fills |
| TradeMatcherLaws.SortOrder | apps/api/src/modules/exchanges/trade-matcher.ts:41 | the same fills, by time and at one time by the sort key of their ids, in ascending order |
| TradeMatcherLaws.LesserIdFirst | apps/api/src/modules/exchanges/trade-matcher.ts:41-85 | of two fills the earlier one, and at one time the one with the lesser id, is matched first, whichever arrives first |
| TradeMatcherLaws.SingleFill | apps/api/src/modules/exchanges/trade-matcher.ts:25-101 | a fill alone is ignored up to 1e-12 units and otherwise left open with its own side, price, quantity and time |
| TradeMatcherLaws.RoundTrip | apps/api/src/modules/exchanges/trade-matcher.ts:51-122 | bought and sold again, or the other way about: one closed trade with both prices, and the quantity times the difference as its profit |
| TradeMatcherLaws.Sweep | apps/api/src/modules/exchanges/trade-matcher.ts:41-101 | of two fills of one order against a position, the one with the lesser id closes it and the other opens the next |
| TradeMatcherLaws.AbsorbCases | apps/api/src/modules/exchanges/trade-matcher.ts:51-84 | every way one fill can go: ignored, extending, reducing, closing, flipping, with the exact state after each |
| TradeMatcherLaws.QuantityDrift | apps/api/src/modules/exchanges/trade-matcher.ts:45-85 | for any non-negative quantities the signed open quantity differs from units bought less units sold by at most one epsilon per fill |
| TradeMatcherLaws.OpenQuantityDrift | apps/api/src/modules/exchanges/trade-matcher.ts:40-102 | the same bound for the quantity the result reports as open |
| TradeMatcherLaws.OpenQuantityExact | apps/api/src/modules/exchanges/trade-matcher.ts:40-102 | for whole lots larger than the epsilon the reported open quantity is exactly bought less sold |
| TradeMatcherLaws.LedgerStep | apps/api/src/modules/exchanges/trade-matcher.ts:63-84 | one fill's value goes, exactly, into the position, a closed trade's leg, or the dropped residue at its own price |
| TradeMatcherLaws.Ledger | apps/api/src/modules/exchanges/trade-matcher.ts:40-122 | for every fill sequence all that was bought (or sold) is in the trades, the open position and the residues |
| TradeMatcherLaws.LossDrift | apps/api/src/modules/exchanges/trade-matcher.ts:23-85 | the residues of either ledger are never negative and at most one epsilon at the top price per fill |
| TradeMatcherLaws.CashConservation | apps/api/src/modules/exchanges/trade-matcher.ts:40-122 | whole lots that net to zero: all trades are CLOSED and their profits sum to sales less purchases, however fills are extended, partially closed or flipped |
| TradeMatcherLaws.CashDrift | apps/api/src/modules/exchanges/trade-matcher.ts:40-122 | for any non-negative quantities the profits plus the open position's cash miss the money that changed hands by at most one epsilon at the top price per fill |
| TradeMatcherLaws.Structure | apps/api/src/modules/exchanges/trade-matcher.ts:45-101 | never more trades than fills; trades follow each other in time; only the last can be OPEN, exactly when a position is held, and then above the epsilon |
| TradeMatcherLaws.TradesAreZeroCrossings | apps/api/src/modules/exchanges/trade-matcher.ts:25-101 | for any arrival of whole lots the closed trades are, one for one, the points where the running total of units reaches or crosses zero, with the side, span, size, average entry and exit prices and profit that the fills imply |
| TradeMatcherLaws.OpenTradeOfLots | apps/api/src/modules/exchanges/trade-matcher.ts:87-99 | for whole lots the trailing OPEN trade has the side, size, average price and opening time that the fills since the last zero imply |
| TradeMatcherLaws.OrderIndependence | apps/api/src/modules/exchanges/trade-matcher.ts:41 | when no two different fills share a (time, id) key, any permutation of the fills gives the same trades |
| TradeMatcherLaws.SortStable | apps/api/src/modules/exchanges/trade-matcher.ts:41 | fills that share a key stay in their order of arrival |
| TradeMatcherLaws.SortsAlike | apps/api/src/modules/exchanges/trade-matcher.ts:41 | two arrivals of fills sort alike if and only if, for every (time, id) key, their fills with that key arrive alike |
| TradeMatcherLaws.TiesCanMatter | apps/api/src/modules/exchanges/trade-matcher.ts:41 | a buy and a sell of one exchange match, equal in time, id and price, give different trades when they swap places |
| Indicators.Sma | apps/api/src/modules/backtests/indicators.ts:7-22 | for any period the running sum is that of the last `period` values at each index, and nothing before there are that many; of all values so far for a fractional period; of values ahead for a whole negative one |
| Indicators.SmaIsMean | apps/api/src/modules/backtests/indicators.ts:7-22 | for a whole positive period the sum of the last `period` values divided by it, once there are that many |
| Indicators.SmaOfFraction | apps/api/src/modules/backtests/indicators.ts:7-22 | for a fractional period the sum of all values so far divided by it |
| Indicators.SmaAhead | apps/api/src/modules/backtests/indicators.ts:7-22 | for a whole negative period what the next values exceed the first ones by, divided by their number |
| Indicators.Rsi | apps/api/src/modules/backtests/indicators.ts:25-54 | for any period the seeded and smoothed averages at every index are those of the recurrence over the price changes |
| Indicators.AveragesAreWeighted | apps/api/src/modules/backtests/indicators.ts:30-51 | the averages times the period are the sums of all rises and of all falls under Wilder's weights: the first `period` count alike, and each later move makes all before it (period - 1) / period of what they were |
| Indicators.RsiIsWeightedShare | apps/api/src/modules/backtests/indicators.ts:25-60 | so the index is the percentage of the weighted rises in all weighted moves, and 100 where nothing has fallen |
| Indicators.RsiBounds | apps/api/src/modules/backtests/indicators.ts:25-60 | for any period a value exists exactly from index `period` on when it is a whole number of at least 1, at every index when it is a negative whole number, never otherwise; every value lies in [0, 100] |
| Indicators.RsiIsShare | apps/api/src/modules/backtests/indicators.ts:56-60 | the index is the percentage of gains in all movement |
| Indicators.RsiMirrorExactly | apps/api/src/modules/backtests/indicators.ts:25-60 | turning every close c into k - c turns each value r into 100 - r (both are 100 where nothing has moved) for all series if and only if the period is positive or k is 0 |
| Indicators.HalfwayNotMirrored | apps/api/src/modules/backtests/indicators.ts:25-60 | with a negative period the one close k / 2 is its own mirror image, and its value is 100 or 0 |
| Indicators.Donchian | apps/api/src/modules/backtests/indicators.ts:68-89 | for any period each bar gets the highest high and the lowest low of exactly the `period` bars before it, and infinities where there are no such bars |
| Signals.MaCrossoverSignal | apps/api/src/modules/backtests/templates/signals.ts:73-83 | for any two periods long exactly where both averages exist and the fast one exceeds the slow one |
| Signals.RsiThresholdSignal | apps/api/src/modules/backtests/templates/signals.ts:86-114 | for any period the flag loop is the latch raised by a cross up through `oversold` and lowered above `overbought` |
| Signals.DonchianBreakoutSignal | apps/api/src/modules/backtests/templates/signals.ts:117-140 | for any period the flag loop is the latch raised by a close above all preceding highs and lowered by a close below all preceding lows |
| Signals.ComputeSignal | apps/api/src/modules/backtests/templates/signals.ts:53-66 | every template with any parameters yields one flag per candle, the one its meaning prescribes |
| Signals.MaLaw | apps/api/src/modules/backtests/templates/signals.ts:73-83 | long exactly where there are enough bars and the mean of the last `fast` closes exceeds that of the last `slow` |
| Signals.RsiLaw | apps/api/src/modules/backtests/templates/signals.ts:85-114 | long exactly since a bar whose index exceeded `oversold` after not having done so, entered while flat, with no index above `overbought` after it |
| Signals.DonchianLaw | apps/api/src/modules/backtests/templates/signals.ts:116-140 | given high >= low, long exactly after a close above all `period` highs before it that no close below all `period` lows before it has followed |
| Signals.DonchianOfFraction | apps/api/src/modules/backtests/templates/signals.ts:117-140 | with a fractional period never long |
| Signals.DonchianBlinks | apps/api/src/modules/backtests/templates/signals.ts:117-140 | with a whole period of zero or less there is nothing to exceed: the flag turns at every bar |
| Signals.NoLookAhead | apps/api/src/modules/backtests/templates/signals.ts:53-140 | series that agree on the first n candles have the same first n flags, for every template but averages with a whole negative period |
| Signals.NoLookAheadExactly | apps/api/src/modules/backtests/templates/signals.ts:53-140 | what is known at a bar decides its flag if and only if neither average has a whole negative period, or the two are equal, or one is zero |
| Simulator.Simulate | apps/api/src/modules/backtests/simulator.ts:50-129 | for any fee, whenever no position is entered at a price of zero, the loop gives the result `Simulated` that the laws below are about |
| SimulatorLaws.CountFigure | apps/api/src/modules/backtests/simulator.ts:114-120 | as many trades are reported as the signal has maximal runs |
| SimulatorLaws.WinRateFigure | apps/api/src/modules/backtests/simulator.ts:114-121 | the reported win rate is the rounded percentage of the trades with a profit |
| SimulatorLaws.GrowthFigures | apps/api/src/modules/backtests/simulator.ts:119-126 | the reported final equity is the rounded capital times the growth over all trades, and the total percentage what that growth exceeds 1 by |
| SimulatorLaws.ProfitFactorFigure | apps/api/src/modules/backtests/simulator.ts:114-123 | the reported profit factor is the rounded sum of all wins over that of all losses, missing exactly when no trade lost |
| SimulatorLaws.DrawdownFigure | apps/api/src/modules/backtests/simulator.ts:101-126 | for a fee of at most 100 percent the reported drawdown is the rounded largest fall over all pairs of points from the starting capital on |
| SimulatorLaws.NothingSimulated | apps/api/src/modules/backtests/simulator.ts:56-69 | without candles nothing is reported but the capital |
| SimulatorLaws.LastPoint | apps/api/src/modules/backtests/simulator.ts:95-99 | the last point of the curve is at the last candle's time, and the rounded grown capital, while a position is open less one fee and scaled by the price |
| SimulatorLaws.CurvePrefix | apps/api/src/modules/backtests/simulator.ts:80-104 | the curve of the first candles is the first part of the curve |
| Simulator.DrawdownStep | apps/api/src/modules/backtests/simulator.ts:101-103 | comparing each point with the highest so far keeps the maximum over all pairs i <= j |
| Simulator.DrawdownIsMax | apps/api/src/modules/backtests/simulator.ts:101-103 | over points that are never negative the running comparison gives the largest fall over all pairs, and no other number is that |
| Simulator.SimulatedDrawdownExactly | apps/api/src/modules/backtests/simulator.ts:80-104 | the reported drawdown is the largest fall over all pairs of points in every run if and only if the fee is at most 100 percent |
| Simulator.FeeOfTwoHundredPercent | apps/api/src/modules/backtests/simulator.ts:80-104 | a concrete run with a fee of 200 percent: at most 300 is reported, and the account falls by 500 |
| Simulator.DrawdownRange | apps/api/src/modules/backtests/simulator.ts:101-103 | a largest fall over points that are never negative lies in [0, 100], and is 100 exactly when a positive point is followed by zero |
| SimulatorLaws.RunsFit | apps/api/src/modules/backtests/simulator.ts:80-113 | the listed runs of a flag series are maximal, in order and apart |
| SimulatorLaws.RunsAreAll | apps/api/src/modules/backtests/simulator.ts:80-113 | every maximal run of a flag series is listed |
| SimulatorLaws.TradesAreRuns | apps/api/src/modules/backtests/simulator.ts:80-113 | the trades are exactly the maximal runs of the signal, in order, entered at the run's first candle and left at the candle that ends it or else the last |
| SimulatorLaws.FinalEquity | apps/api/src/modules/backtests/simulator.ts:86-134 | for any fee final equity before rounding is the capital times (1 - fee)^2 * exit / entry over all trades |
| SimulatorLaws.TradePercent | apps/api/src/modules/backtests/simulator.ts:131-150 | a trade's percentage is (1 - fee) * exit / entry - 1: the exit fee only |
| SimulatorLaws.TradesMeasured | apps/api/src/modules/backtests/simulator.ts:86-113 | in every run each reported percentage is (1 - fee) * exit / entry - 1 of that trade's own prices |
| SimulatorLaws.NetOfBothFeesExactly | apps/api/src/modules/backtests/simulator.ts:9-12 | measured from the account before the entry fee it would be the same if and only if there is no fee |
| SimulatorLaws.HalfReported | apps/api/src/modules/backtests/simulator.ts:131-150 | a concrete trade: three quarters of the account are lost and -50 is reported |
| SimulatorLaws.BacktestNoLookAhead | apps/api/src/modules/backtests/simulator.ts:80-104 | running a template that does not look ahead on the first n candles gives the first n equity points of running it on all of them |
| SimulatorLaws.SummarySplits | apps/api/src/modules/backtests/simulator.ts:114-128 | gross profit less gross loss is the sum of all percentages, and the counted wins are the winning trades |
| Options.RoundIsNearest | apps/api/src/modules/backtests/simulator.ts:152-154 | rounding gives whole hundredths within half a hundredth of the value, halves upwards |
| Calendar.CivilRoundTrip | apps/api/src/modules/ai-reports/types/report-period.ts:7-11 | year, month and date of a day put together again give that day |
| Calendar.MonthUnique | apps/api/src/modules/ai-reports/types/report-period.ts:29-33 | a day lies in exactly one calendar month, across leap years and centuries |
| Calendar.WeekDays | apps/api/src/modules/ai-reports/types/report-period.ts:15-16 | day 0 is a Thursday and each day is followed by the next weekday |
| Calendar.YearsFollow | apps/api/src/modules/ai-reports/types/report-period.ts:7-33 | years follow each other from 1970 on with 366 days by the Gregorian rule and 365 otherwise |
| Calendar.MonthsFollow | apps/api/src/modules/ai-reports/types/report-period.ts:29-33 | months follow each other from January 1970 on, with 31, 30, 28 or 29 days |
| Calendar.DayIs | apps/api/src/modules/ai-reports/types/report-period.ts:7-33 | the day number of an instant, floored also before 1970 |
| Calendar.DateUtcIsDay | apps/api/src/modules/ai-reports/types/report-period.ts:7-33 | the instant of a date is midnight of its day, with the years 0 to 99 moved by 1900 |
| ReportPeriods.DailyContains | apps/api/src/modules/ai-reports/types/report-period.ts:6-12 | the day contains its reference if and only if the reference's year is not remapped |
| ReportPeriods.WeeklyContains | apps/api/src/modules/ai-reports/types/report-period.ts:14-26 | the week contains its reference if and only if the reference's year is not remapped |
| ReportPeriods.MonthlyContains | apps/api/src/modules/ai-reports/types/report-period.ts:28-33 | the month contains its reference if and only if the reference's year is not remapped |
| ReportPeriods.DailyPartition | apps/api/src/modules/ai-reports/types/report-period.ts:6-12 | any two day periods are equal or disjoint |
| ReportPeriods.WeeklyPartition | apps/api/src/modules/ai-reports/types/report-period.ts:14-26 | a week is equal to or disjoint from the weeks of all references outside the remapped years if and only if its own reference is outside them too |
| ReportPeriods.MonthlyPartition | apps/api/src/modules/ai-reports/types/report-period.ts:28-33 | any two month periods are equal or disjoint |
| ReportPeriods.WeekStartsMonday | apps/api/src/modules/ai-reports/types/report-period.ts:14-26 | weeks start at midnight and last seven days; they start on a Monday (day 4 modulo 7) if and only if the reference's year is not one of 0 to 99, and then at most six days before it |
| ReportPeriods.WeekStartPlain | apps/api/src/modules/ai-reports/types/report-period.ts:14-26 | the first day of every week period in day numbers: what the reference's number exceeds the last 4 modulo 7 by is taken off, and 693960 days are added when its year is remapped, one more in January and February of year 0 |
| ReportPeriods.MonthIsCivil | apps/api/src/modules/ai-reports/types/report-period.ts:28-33 | a month period runs from the first of the reference's month to the first of the next, 28 to 31 days |
| ReportPeriods.DailyIsDay | apps/api/src/modules/ai-reports/types/report-period.ts:6-12 | outside the years 0 to 99 the day period is the day of its reference |
| ReportPeriods.MonthlyIsMonth | apps/api/src/modules/ai-reports/types/report-period.ts:28-33 | the month period is, in day numbers, the month of its reference, 1900 years later for the years 0 to 99 |
| ReportPeriods.PreviousMonth | apps/api/src/modules/ai-reports/types/report-period.ts:35-51 | the month before ends where the month starts, across year ends and leap Februaries, if and only if that is not January of year 100 |
| ReportPeriods.PreviousWeek | apps/api/src/modules/ai-reports/types/report-period.ts:35-45 | the week before ends where the week starts if and only if neither the reference nor the day a week before that start is in a remapped year |
| ReportPeriods.PreviousTiles | apps/api/src/modules/ai-reports/types/report-period.ts:35-51 | previous weeks and months both tile time if and only if the reference is neither in a remapped year nor in January of year 100 |
| ReportPeriods.PreviousMonthIsBefore | apps/api/src/modules/ai-reports/types/report-period.ts:47-51 | the month before is always the month of the last instant before |
| ReportPeriods.PreviousWeekIsBefore | apps/api/src/modules/ai-reports/types/report-period.ts:35-45 | so is the week before, where weeks tile |
| ReportPeriods.YearFiftyMissed | apps/api/src/modules/ai-reports/types/report-period.ts:7-33 | an instant of year 50 is in none of its periods |
| ReportPeriods.YearFiftyWeekOverlaps | apps/api/src/modules/ai-reports/types/report-period.ts:14-26 | a concrete week of year 50 that overlaps the week of the instant it starts at |
| ReportPeriods.JanuaryHundredMissed | apps/api/src/modules/ai-reports/types/report-period.ts:47-51 | the month before January of year 100 does not end where it starts |
| PatternDetector.GroupBy | apps/api/src/modules/ai-coach/pattern-detector.service.ts:407-416 | keys in order of first occurrence, each with exactly its items in order |
| PatternDetector.InOwnBucket | apps/api/src/modules/ai-coach/pattern-detector.service.ts:407-416 | an item is in the bucket of its own key and in no other |
| PatternDetector.BucketsInOrder | apps/api/src/modules/ai-coach/pattern-detector.service.ts:407-416 | a bucket keeps the order of the items |
| PatternDetector.KeysInOrder | apps/api/src/modules/ai-coach/pattern-detector.service.ts:407-416 | the keys of the first items come first, in the same order |
| PatternDetector.BucketsPartition | apps/api/src/modules/ai-coach/pattern-detector.service.ts:161-162 | for any key function the buckets share out all trades and all wins |
| PatternDetector.OverallIsWeightedMean | apps/api/src/modules/ai-coach/pattern-detector.service.ts:158-183 | the overall win rate is the size-weighted mean of the bucket win rates of either kind |
| PatternDetector.WinRateIsShare | apps/api/src/modules/ai-coach/pattern-detector.service.ts:335-339 | a win rate is the number of trades with a positive profit divided by the number of trades |
| PatternDetector.HourBucketIsRange | apps/api/src/modules/ai-coach/pattern-detector.service.ts:379-391 | every instant is in exactly one hour range, the one its label names |
| PatternDetector.LabelsSayRanges | apps/api/src/modules/ai-coach/pattern-detector.service.ts:381-386 | the four ranges are six hours each, and every label says from when to when its range runs |
| PatternDetector.HoursIs | apps/api/src/modules/ai-coach/pattern-detector.service.ts:388-391 | the hour of an instant counts from the start of its day in UTC |
| PatternDetector.HourCandidate | apps/api/src/modules/ai-coach/pattern-detector.service.ts:379-391 | an hour bucket has exactly the trades opened in one range of hours |
| PatternDetector.WeekdayLabels | apps/api/src/modules/ai-coach/pattern-detector.service.ts:393-405 | the name of the weekday of an instant, counted from Thursday, 1 January 1970 |
| PatternDetector.WeekdayCandidate | apps/api/src/modules/ai-coach/pattern-detector.service.ts:161-162 | a weekday bucket has exactly the trades opened on one day of the week |
| PatternDetector.CandidatesInOrder | apps/api/src/modules/ai-coach/pattern-detector.service.ts:161-183 | hour buckets are searched first, and the buckets of a kind in the order in which their labels first occur |
| PatternDetector.SearchBuckets | apps/api/src/modules/ai-coach/pattern-detector.service.ts:167-183 | the worst-so-far search keeps the first of the eligible buckets seen with the lowest win rate below overall, or none |
| PatternDetector.DetectTimeOfDayWeakness | apps/api/src/modules/ai-coach/pattern-detector.service.ts:158-198 | a finding is returned exactly when some bucket of at least 5 trades is 0.2 or more below the overall win rate; it reports label, kind, both rates in percent, size and first ten trades of the first of the eligible buckets with the lowest win rate |
| Correlation.CauchySchwarz | apps/api/src/modules/ai-coach/pattern-detector.service.ts:363-369 | the square of the accumulated numerator is at most the product of the accumulated sums of squares |
| Correlation.PearsonCorrelation | apps/api/src/modules/ai-coach/pattern-detector.service.ts:352-373 | the loop computes the correlation of the deviations, and it lies in [-1, 1] for series of any lengths |
| Correlation.UnitsDoNotMatter | apps/api/src/modules/ai-coach/pattern-detector.service.ts:352-373 | changing a series to a * x + b keeps the correlation for positive a and negates it for negative a |
| Correlation.SelfCorrelation | apps/api/src/modules/ai-coach/pattern-detector.service.ts:352-373 | a series correlates with itself at 1, or 0 when it is constant |
| Correlation.ShorterSeries | apps/api/src/modules/ai-coach/pattern-detector.service.ts:341-364 | each deviation is from the plain average, which is 0 for no values, and a missing value counts as 0 |
| Correlation.DeviationsCancel | apps/api/src/modules/ai-coach/pattern-detector.service.ts:341-344 | the deviations from the average add up to zero |
| Correlation.CovarianceByHand | apps/api/src/modules/ai-coach/pattern-detector.service.ts:352-369 | the accumulated numerator times n is n * sum(x * y) - sum(x) * sum(y) |
| Correlation.PearsonByHand | apps/api/src/modules/ai-coach/pattern-detector.service.ts:352-373 | the textbook formula: the square of the correlation times both variances is the square of the covariance, whose sign it has, and it is 0 when a series does not vary |
| BinanceKlines.FetchCandles | apps/api/src/modules/market-data/binance-klines.service.ts:47-81 | refused as unsupported if and only if the name is neither listed nor inherited by every object; as too many if and only if listed and over the cap; an inherited name fetches one page; the cursor loop ends for any provider, and over a provider of spaced candles returns the expected answer of the simple query |
| BinanceKlines.InheritedAreFetched | apps/api/src/modules/market-data/binance-klines.service.ts:48-60 | the twelve inherited names, "constructor" among them, pass both refusals for every range |
| BinanceKlines.NamesSayDurations | apps/api/src/modules/market-data/binance-klines.service.ts:10-27 | the listed timeframes are these fourteen, and each lasts the number of minutes, hours, days or weeks that its name says |
| BinanceKlines.PageOfThousand | apps/api/src/modules/market-data/binance-klines.service.ts:6-8 | a page has the first thousand candles of its window |
| BinanceKlines.WalkOn | apps/api/src/modules/market-data/binance-klines.service.ts:66-77 | a full page continues the walk with whole pages up to one interval before the cursor |
| BinanceKlines.AnswerContains | apps/api/src/modules/market-data/binance-klines.service.ts:62-80 | every candle with from <= openTime < to once and in order; beyond them at most the one at `to`, missing exactly when the pages fill up one interval before it |
| BinanceKlines.AnswerBound | apps/api/src/modules/market-data/binance-klines.service.ts:55-80 | never more than 5001 candles |
| Billing.BillingService.CreateFreeSubscription | apps/api/src/modules/billing/billing.service.ts:41-50 | a new row on the free plan for a user without one, all other rows unchanged |
| Billing.BillingService.HandleWebhookEvent | apps/api/src/modules/billing/billing.service.ts:270-303 | one delivery changes the rows and the processed ids as `Deliver` says: nothing when the handler throws, the rows alone when the processed id cannot be written |
| Billing.DeliveryWrites | apps/api/src/modules/billing/billing.service.ts:270-303 | a delivery does nothing when its id is known or its handler throws, and else makes the handler's writes and its own record if that can be written |
| Billing.OtherEventIgnored | apps/api/src/modules/billing/billing.service.ts:289-290 | an event of another type changes no row |
| Billing.BillingService.HandleCheckoutCompleted | apps/api/src/modules/billing/billing.service.ts:365-389 | the checkout handler's early returns, failures and row update |
| Billing.CheckoutIgnored | apps/api/src/modules/billing/billing.service.ts:365-377 | a checkout without a user, a customer or a subscription changes nothing |
| Billing.CheckoutWrites | apps/api/src/modules/billing/billing.service.ts:365-389 | any other fails without the user's row or with another row's ids, and else writes plan, status and both ids to that row and nothing else |
| Billing.BillingService.HandleSubscriptionUpdated | apps/api/src/modules/billing/billing.service.ts:391-412 | the update handler's lookup by customer, failures and row update |
| Billing.UpdateIgnored | apps/api/src/modules/billing/billing.service.ts:391-398 | an update of a customer without a row changes nothing |
| Billing.UpdateWrites | apps/api/src/modules/billing/billing.service.ts:391-412 | any other fails if another row has the subscription, and else writes plan, status, subscription, price, period end and cancellation to that row and nothing else |
| Billing.StatusNames | apps/api/src/modules/billing/billing.service.ts:452-467 | which status names mean which status |
| Billing.PlanOfPrice | apps/api/src/modules/billing/billing.service.ts:428-442 | which price means which plan |
| Billing.BillingService.HandleSubscriptionDeleted | apps/api/src/modules/billing/billing.service.ts:414-426 | the deletion handler's lookup by subscription and row update |
| Billing.DeletionIgnored | apps/api/src/modules/billing/billing.service.ts:414-419 | the end of an unknown subscription changes nothing |
| Billing.DeletionWrites | apps/api/src/modules/billing/billing.service.ts:414-426 | any other leaves its owner's row cancelled on the free plan, and everything else as it was |
| Billing.EffectivePlanIs | apps/api/src/modules/billing/billing.service.ts:469-482 | the plan that counts: FREE without a row, and for a cancelled or past-due subscription only until the period end |
| Billing.RepeatHarmless | apps/api/src/modules/billing/billing.service.ts:293-426 | a handler run again, whatever came between, changes nothing if and only if there is no row the event is about or that row says what the event says |
| Billing.HandlerTwice | apps/api/src/modules/billing/billing.service.ts:365-426 | running a handler again right after it succeeded changes nothing |
| Billing.TwoRows | packages/database/prisma/schema.prisma:503-504 | which rows of two users the writes may leave side by side: any that share neither a customer nor a subscription |
| Billing.OneRowAtMost | apps/api/src/modules/billing/billing.service.ts:365-426 | no event adds or removes a subscription, and it changes at most one |
| Billing.CheckoutEntitles | apps/api/src/modules/billing/billing.service.ts:365-389 | a checkout succeeds exactly when the user has a row and no other row has its ids; then the user is on the plan paid for at all times and is found by both ids |
| Billing.UpdateEntitles | apps/api/src/modules/billing/billing.service.ts:391-482 | after an update the customer has the plan of the price (or the old one), for a cancelled or unpaid subscription only until the period end |
| Billing.DeletedIsFree | apps/api/src/modules/billing/billing.service.ts:414-426 | after a cancellation the owner's effective plan is FREE at all times |
| Billing.SkippedAfterSuccess | apps/api/src/modules/billing/billing.service.ts:270-277 | in every run an event id is skipped for good after its first successful delivery |
| Billing.SkippedExactly | apps/api/src/modules/billing/billing.service.ts:270-303 | a delivery is skipped exactly when an earlier delivery of the same event was handled and recorded; failed and unrecorded ones do not count |
| Billing.DuplicateDoesNotMatter | apps/api/src/modules/billing/billing.service.ts:255-303 | deleting a delivery that follows a successful one of the same event leaves the final state as it is |
| Billing.Deduplication | apps/api/src/modules/billing/billing.service.ts:255-303 | a delivery sequence and the one without repeats end in the same state |
| Billing.DeduplicatedRunsEachOnce | apps/api/src/modules/billing/billing.service.ts:255-303 | in the sequence without repeats no delivery is skipped and each event is recorded at most once, only after deliveries of it that failed or went unrecorded |
| Billing.RetryAfterUnrecorded | apps/api/src/modules/billing/billing.service.ts:293-302 | an event handled but not recorded, delivered again at once, comes to exactly one delivery |
| Billing.LateRetryExactly | apps/api/src/modules/billing/billing.service.ts:270-426 | with any other deliveries between, a retried event that was not recorded leads to the same state as one recorded delivery if and only if the rows still reflect it |
| Billing.LateRetryOfUpdate | apps/api/src/modules/billing/billing.service.ts:291-412 | for an update that names a configured price, with another update of the same subscription between, they lead to the same state if and only if no row has the customer or the two updates agree on mapped status, period end, cancellation and price (or the later one names no price) |
| Billing.UpgradeLost | apps/api/src/modules/billing/billing.service.ts:291-412 | a concrete pair of updates: an upgrade to PREMIUM is taken back by the retry of an older event |
| Slugs.SlugifyJoinsWords | apps/api/src/modules/workspaces/workspaces.service.ts:348-356 | a slug is the [a-z0-9] runs of the lower-cased name joined by single hyphens, or "workspace" when there are none |
| Slugs.SlugifyKeepsSlugs | apps/api/src/modules/workspaces/workspaces.service.ts:348-356 | a text that is a slug already is left as it is |
| Slugs.SlugifyIdempotent | apps/api/src/modules/workspaces/workspaces.service.ts:348-356 | making a slug of a slug changes nothing |
| Slugs.AlnumCharacters | apps/api/src/modules/workspaces/workspaces.service.ts:352 | the characters that words are made of, by their codes |
| Slugs.SpaceCharacters | apps/api/src/modules/workspaces/workspaces.service.ts:176 | the white space that is trimmed, by its codes |
| Slugs.TrimIsMiddle | apps/api/src/modules/workspaces/workspaces.service.ts:176 | trimming takes white space off both ends, and all of it |
| Slugs.Candidates | apps/api/src/modules/workspaces/workspaces.service.ts:330-341 | the first candidate is the base itself, the second ends in -2, and every number is written in decimal |
| Slugs.Pigeonhole | apps/api/src/modules/workspaces/workspaces.service.ts:335-338 | numbered candidates are pairwise distinct, so that n - 1 taken ones need n - 1 taken slugs |
| Slugs.ResolveUniqueSlug | apps/api/src/modules/workspaces/workspaces.service.ts:330-341 | the search ends after at most one try more than there are taken slugs, with the first free candidate, which is a slug |
| WorkspacesServices.WorkspacesService.CreateWorkspace | apps/api/src/modules/workspaces/workspaces.service.ts:41-69 | a workspace with a free slug and its creator as owner, or a refusal that changes nothing; every workspace keeps an owner |
| WorkspacesServices.WorkspacesService.UpdateWorkspace | apps/api/src/modules/workspaces/workspaces.service.ts:87-105 | the two refusals, and otherwise exactly the fields that the request names are changed; every workspace keeps an owner |
| WorkspacesServices.WorkspacesService.RemoveWorkspace | apps/api/src/modules/workspaces/workspaces.service.ts:107-111 | the workspace goes with its memberships and invitations; every workspace keeps an owner |
| WorkspacesServices.WorkspacesService.SetMemberRole | apps/api/src/modules/workspaces/workspaces.service.ts:119-138 | the three refusals and the one changed role; every workspace keeps an owner |
| WorkspacesServices.WorkspacesService.DeleteMember | apps/api/src/modules/workspaces/workspaces.service.ts:140-154 | the three refusals and the one deleted membership; every workspace keeps an owner |
| WorkspacesServices.WorkspacesService.LeaveWorkspace | apps/api/src/modules/workspaces/workspaces.service.ts:156-167 | the two refusals and the one deleted membership; every workspace keeps an owner |
| WorkspacesServices.WorkspacesService.InviteMember | apps/api/src/modules/workspaces/workspaces.service.ts:169-219 | the refusals and the one new invitation; every workspace keeps an owner |
| WorkspacesServices.WorkspacesService.RevokeInvitation | apps/api/src/modules/workspaces/workspaces.service.ts:229-239 | the refusals and the one revoked invitation; every workspace keeps an owner |
| WorkspacesServices.WorkspacesService.AcceptInvitation | apps/api/src/modules/workspaces/workspaces.service.ts:259-295 | the refusals, the membership added when there is none, and the invitation marked as accepted; every workspace keeps an owner |
| WorkspacesLaws.StepKeepsOwners | apps/api/src/modules/workspaces/workspaces.service.ts:41-303 | no request takes the last owner from a workspace that stays |
| WorkspacesLaws.AlwaysOwned | apps/api/src/modules/workspaces/workspaces.service.ts:41-303 | in every run, whatever users register between the requests, every existing workspace has an owner, and slugs, memberships and tokens stay unique |
| WorkspacesLaws.CreateEffect | apps/api/src/modules/workspaces/workspaces.service.ts:41-69 | creating is refused exactly when the plan does not allow it; it adds one workspace with the first free slug and its user's ownership, and nothing else |
| WorkspacesLaws.UpdateEffect | apps/api/src/modules/workspaces/workspaces.service.ts:87-105 | an update is refused exactly for a stranger or a slug of another workspace; it changes the fields it names and nothing else |
| WorkspacesLaws.RemoveEffect | apps/api/src/modules/workspaces/workspaces.service.ts:107-111 | a member removes the workspace with exactly its memberships and invitations |
| WorkspacesLaws.RoleEffect | apps/api/src/modules/workspaces/workspaces.service.ts:119-138 | a role is changed exactly when a member asks, the membership is of the workspace and another owner is left, and nothing but that role |
| WorkspacesLaws.RemovalEffect | apps/api/src/modules/workspaces/workspaces.service.ts:140-154 | a member is removed under the same conditions; the membership is gone, its user is no member any more, and nothing else has changed |
| WorkspacesLaws.LeavingEffect | apps/api/src/modules/workspaces/workspaces.service.ts:156-167 | a member leaves exactly when another owner is left, with the same effect |
| WorkspacesLaws.InviteRefused | apps/api/src/modules/workspaces/workspaces.service.ts:169-198 | an invitation is refused exactly by a stranger, or for an address that is a member's or has one pending |
| WorkspacesLaws.InviteEffect | apps/api/src/modules/workspaces/workspaces.service.ts:169-219 | it adds one invitation to the lower-cased and trimmed address for seven days, and nothing else |
| WorkspacesLaws.RevokeEffect | apps/api/src/modules/workspaces/workspaces.service.ts:229-239 | a member revokes an invitation of the workspace, and nothing else changes |
| WorkspacesLaws.AcceptExactly | apps/api/src/modules/workspaces/workspaces.service.ts:259-315 | an invitation with the token is accepted exactly when it is pending, in time and addressed to the user, and refused for the first of these that fails |
| WorkspacesLaws.UnknownToken | apps/api/src/modules/workspaces/workspaces.service.ts:259-264 | an unknown token is not found |
| WorkspacesLaws.OwnerIsCreator | apps/api/src/modules/workspaces/workspaces.service.ts:41-303 | in every run of requests whose roles are those the validation admits, each workspace has exactly one owner, the membership of the user who created it |
| WorkspacesLaws.OwnerNeverChanges | apps/api/src/modules/workspaces/workspaces.service.ts:41-303 | in every such run the owner of a workspace stays the same as long as the workspace is there |
| WorkspacesLaws.RemovalRefusedExactly | apps/api/src/modules/workspaces/workspaces.service.ts:140-154 | removing a member is refused as a conflict exactly when no owner would be left |
| WorkspacesLaws.LeavingRefusedExactly | apps/api/src/modules/workspaces/workspaces.service.ts:156-167 | leaving is refused as a conflict exactly when no owner would be left |
| WorkspacesLaws.RoleChangeRefusedExactly | apps/api/src/modules/workspaces/workspaces.service.ts:119-138 | the service method refuses a role change as a conflict exactly for the only owner, even when the role stays OWNER |
| WorkspacesLaws.AcceptEffect | apps/api/src/modules/workspaces/workspaces.service.ts:259-295 | accepting needs a pending, unexpired invitation to the user's own address, adds at most that one membership, and uses the invitation up |
| WorkspacesLaws.AcceptedOnce | apps/api/src/modules/workspaces/workspaces.service.ts:259-315 | in every run, whatever users register between the requests, an invitation is accepted at most once |
| WorkspacesLaws.RevokedNeverAccepted | apps/api/src/modules/workspaces/workspaces.service.ts:229-315 | in every run, whatever users register between the requests, a revoked invitation is never accepted afterwards |
| WorkspacesLaws.RunKeepsOnePending | apps/api/src/modules/workspaces/workspaces.service.ts:191-198 | in every run, whatever users register between the requests, a workspace has at most one pending invitation per address |
| WorkspacesLaws.MembersComeFrom | apps/api/src/modules/workspaces/workspaces.service.ts:41-303 | only creating a workspace and accepting an invitation ever add a membership |

## Left out

- IEEE-754 rounding and overflow: numbers are reals, with NaN and infinities only where a period, a timeframe or a fee of 100 percent brings them about; dates are unbounded integers, so the limits of `Date` (8.64e15 ms) are not modelled.
- Simulator.Simulate: needs starting capital above zero, as the validation does, and no entry at a price of zero, whose returns would be infinite or NaN.
- Simulator.SimulatedDrawdownExactly: is about prices that are not negative.
- validateTemplateParams and the plan limits: independent branches without a deeper property.
- Concurrency inside one request: each webhook delivery and each workspace request is one atomic step, so that the check for the last owner and the write after it are not separated; two deliveries of one event in flight act like one that goes unrecorded followed by one that is recorded.
- Signature checks, Stripe calls, the network and the database itself: a provider of candles, a table of rows with its unique constraints, and the outcome of a write stand for them.
- Failing page requests: one failure aborts the whole fetch.
- Deleting a user, which would cascade to memberships, belongs to another service; a collision of a random invitation token is refused here as a conflict.
- Promo codes, checkout and portal sessions: mostly calls to Stripe.
- The other detectors of the pattern detector and its minimum of 10 closed trades: variations of grouping and averaging.
- The width of `localeCompare` and of Unicode lower-casing: any collation and any lower-casing that keeps slugs is allowed.
