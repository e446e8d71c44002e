# Portfolio risk-return engine — a Dafny model

This project models the numerical core of the quantitative portfolio engine's
front end:

- **Monte Carlo simulation.** `generatePortfolios` turns random draws into
  normalised weights over the asset universe. It scores each portfolio by
  expected return (wᵀμ), volatility (√max(0, wᵀΣw)) and Sharpe ratio.
- **Selection.** `findMaxSharpePortfolio` and `findMinVolatilityPortfolio`
  pick one point. The default selection after a run keeps the last point on
  a Sharpe tie instead of the first.
- **Population statistics.** `calculatePortfolioStats`.
- **Efficient frontier.** `extractEfficientFrontier` splits the observed
  volatility range into equal half-open buckets. It keeps the best-return
  point of each non-empty bucket and sorts the kept points by volatility.
- **Risk panel.** The `riskMetrics` memo rebuilds the portfolio's value
  over the price history. From that value it derives the daily returns, the
  drawdown of every day from the running peak, the deepest drawdown, and the
  historical 95% Value at Risk.
- **Backtest chart.** The backtest memo rebuilds the same value series next
  to a benchmark compounded at the risk-free rate over 252 business days.
  It reports the best day, the worst day, the win rate and the benchmark's
  total growth.

Numbers are Dafny `real`s. A JavaScript `Record<string, number>` is a
sequence of key/value entries with distinct keys, kept in enumeration
order (`Base.Record`). Three JavaScript built-ins enter as parameters:

- `Math.sqrt` is a function parameter constrained by `RealSeq.IsSqrt`.
- `Math.pow(x, 1/252)` is a function parameter `root252`. `RunBacktest`
  places no constraint on it; only the benchmark lemmas
  (`Backtest.BenchmarkAfterOneYear`, `Backtest.BenchmarkNeverFalls`)
  require it to be a 252nd root (`Backtest.IsRoot252`).
- `Math.random` is replaced by the draws, which are supplied.

Date formatting (`toLocaleDateString`) is a function parameter as well.

Modules, in dependency order:

| module | file |
|---|---|
| `Base` | `base.dfy` |
| `RealSeq` | `realseq.dfy` |
| `Ordering` | `ordering.dfy` |
| `Portfolio` | `portfolio.dfy` |
| `Selection` | `selection.dfy` |
| `PortfolioStatistics` | `stats.dfy` |
| `Frontier` | `frontier.dfy` |
| `Valuation` | `valuation.dfy` |
| `Risk` | `risk.dfy` |
| `Backtest` | `backtest.dfy` |

What each module holds:

- `Base`: options and records.
- `RealSeq`: sums, extremes, means and powers over sequences of reals.
- `Ordering`: first and last arg-max, stable insertion sort, rank counts.
- `Portfolio`: normalising the draws and scoring one portfolio
  (return, variance, volatility, Sharpe ratio); the simulation loop.
- `Selection`: the maximum-Sharpe and minimum-volatility picks, and the
  page's default pick.
- `PortfolioStatistics`: extremes and means over the simulated points.
- `Frontier`: volatility buckets, their winners and the efficient frontier.
- `Valuation`: a day's portfolio value and the daily returns.
- `Risk`: peaks, drawdowns, the maximum drawdown and the 95% value at risk.
- `Backtest`: the backtest chart, its statistics and the compounded
  benchmark.

Behaviours of the code worth knowing, each modelled as written:

- **Equal volatilities.** When every point has the same volatility, the
  bucket width at frontend/src/lib/finance.ts:139-140 is 0, every bucket
  `[v, v)` filtered at :149-151 is empty, and the frontier is empty
  (`Frontier.FrontierEmptyWhenVolatilitiesEqual`).
- **Greatest volatility (over the reals).** In real arithmetic the last
  bucket ends exactly at the greatest volatility (finance.ts:144-146), and
  the filter's `<` excludes it. So a point with the greatest volatility is
  never on the frontier (`Frontier.FrontierBelowMaxVolatility`). In
  doubles this need not hold. The end is computed as
  `(minVolatility + 19 * bucketSize) + bucketSize`, and that sum can round
  above the greatest volatility. With a least volatility of
  0.10719055531761316, a greatest of 0.39082649328823593 and 20 buckets,
  the last bucket ends at 0.390826493288236. The greatest-volatility point
  then passes the filter and can be kept (see "Left out").
- **Empty history.** With a selected portfolio and an empty history, the
  backtest memo reads `data[data.length - 1].benchmark`
  (frontend/src/components/BacktestChart.tsx:64) and throws. The model
  gives this its own outcome, `Backtest.EmptyHistoryFault`.
- **Two tie-breaks for the best Sharpe ratio.** `findMaxSharpePortfolio`
  (finance.ts:81-83) keeps the first of equal maxima, while the page's
  default selection (frontend/app/page.tsx:70) keeps the last
  (`Selection.TieBreaksDiffer`).

## Model

| member | source | states |
|---|---|---|
| Portfolio.NormaliseTimesTotal | frontend/src/lib/finance.ts:31-33 | each normalised weight times the draw total gives back its draw |
| Portfolio.NormaliseSumsToOne | frontend/src/lib/finance.ts:31-33 | the normalised weights of a non-empty draw sum to 1 |
| Portfolio.Volatility | frontend/src/lib/finance.ts:58 | the volatility is non-negative, squares back to the variance clamped at 0, and is 0 exactly when the variance is not positive |
| Portfolio.SharpeRatio | frontend/src/lib/finance.ts:62 | with positive volatility the ratio times the volatility is the excess return over the risk-free rate, otherwise the ratio is 0 |
| Portfolio.AccumulateReturn | frontend/src/lib/finance.ts:42-45 | the running sum over the tickers equals the dot product of mean returns and weights |
| Portfolio.AccumulateVariance | frontend/src/lib/finance.ts:49-57 | the double loop equals the quadratic form wᵀΣw, a missing covariance row or cell counting as 0 |
| Portfolio.ScorePortfolio | frontend/src/lib/finance.ts:35-68 | the point is keyed by the universe's tickers in order, and its return, volatility and Sharpe ratio satisfy the scoring relations |
| Portfolio.GeneratePortfolios | frontend/src/lib/finance.ts:17-73 | exactly `numSimulations` points; point k is the scoring of draw k with the rate converted from percent (weights keyed by ticker that are the normalised draws, return wᵀμ, volatility² = max(0, wᵀΣw), Sharpe ratio per unit volatility or 0) |
| Portfolio.DrawnWeightsAreShares | frontend/src/lib/finance.ts:31-39 | the weights of a point scored from draws in [0, 1) are non-negative shares of the draw total |
| Portfolio.TwoAssetScenario | frontend/src/lib/finance.ts:41-58 | two uncorrelated assets with equal draws: return 0.15 and variance 0.0325 |
| Portfolio.SingleAssetSharpeScenario | frontend/src/lib/finance.ts:58-62 | one asset with mean 0.1 and variance 0.01 at rate 0 has Sharpe ratio 1 |
| Selection.FindMaxSharpePortfolio | frontend/src/lib/finance.ts:78-84 | null exactly for an empty population; otherwise a member with the greatest Sharpe ratio, every earlier member strictly lower (first wins a tie) |
| Selection.FindMinVolatilityPortfolio | frontend/src/lib/finance.ts:89-95 | null exactly for an empty population; otherwise a member with the least volatility, every earlier member strictly higher |
| Selection.DefaultSelection | frontend/app/page.tsx:70 | nothing for an empty run; otherwise a member with the greatest Sharpe ratio, every later member strictly lower (last wins a tie) |
| Selection.DefaultSelectionAgreesOnSharpe | frontend/app/page.tsx:70 | the default selection has the same Sharpe ratio as `findMaxSharpePortfolio`'s answer |
| Selection.SelectionsAgreeOnUniqueBest | frontend/app/page.tsx:70 | with a unique greatest Sharpe ratio both selections return that very point |
| Selection.TieBreaksDiffer | frontend/app/page.tsx:70 | on a two-point tie `findMaxSharpePortfolio` returns the first and the default selection the second |
| PortfolioStatistics.CalculatePortfolioStats | frontend/src/lib/finance.ts:100-126 | all zeros for an empty population; otherwise each average is the arithmetic mean (times the population size it gives the sum of the returns, volatilities or Sharpe ratios), each average lies between its extremes, and every member lies between the extremes |
| PortfolioStatistics.ExtremesAreAttained | frontend/src/lib/finance.ts:121-124 | each extreme is the return or volatility of some member |
| Ordering.SortBy | frontend/src/lib/finance.ts:162 | the result is ordered by the key and has the input's length |
| Ordering.SortByPermutes | frontend/src/lib/finance.ts:162 | the sorted sequence is a permutation of the input (equal multisets) |
| Ordering.SortSortedIsIdentity | frontend/src/lib/finance.ts:162 | a stable sort leaves an already strictly ordered sequence unchanged |
| Frontier.BucketMembers | frontend/src/lib/finance.ts:149-151 | every member lies inside the bucket, and there are none exactly when no point of the population is in the bucket |
| Frontier.BucketBest | frontend/src/lib/finance.ts:153-158 | a kept point lies inside the bucket |
| Frontier.BucketBestIsWinner | frontend/src/lib/finance.ts:148-158 | nothing is kept exactly when the bucket is empty; otherwise the kept point has the bucket's highest return and comes first among equal returns |
| Frontier.BucketWinnerUnique | frontend/src/lib/finance.ts:155-157 | a bucket has at most one winner |
| Frontier.BucketLowIsScaled | frontend/src/lib/finance.ts:145-146 | over the reals, bucket i starts at minVolatility + i·bucketSize and ends where bucket i+1 starts |
| Frontier.CollectBuckets | frontend/src/lib/finance.ts:144-160 | at most one point per bucket, none when the bucket width is 0 |
| Frontier.CollectBucketsOrdered | frontend/src/lib/finance.ts:144-160 | the loop's points lie in the scanned range and come out in strictly increasing volatility |
| Frontier.CollectedAreWinners | frontend/src/lib/finance.ts:144-160 | every point the bucket loop pushes is the winner of one of the scanned buckets |
| Frontier.KeptStaysCollected | frontend/src/lib/finance.ts:144-160 | what any scanned bucket keeps is in the loop's output |
| Frontier.WinnerIsCollected | frontend/src/lib/finance.ts:144-160 | the winner of every scanned bucket is pushed |
| Frontier.ExtractEfficientFrontier | frontend/src/lib/finance.ts:132-163 | empty for an empty population, at most `buckets` points, strictly ascending in volatility |
| Frontier.FrontierIsBucketOrder | frontend/src/lib/finance.ts:138-162 | the width is non-negative and the final sort returns the bucket loop's output unchanged |
| Frontier.FrontierPointsAreWinners | frontend/src/lib/finance.ts:144-162 | every frontier point is a population point that wins one of the buckets (highest return, earliest among equals) |
| Frontier.FrontierKeepsEveryWinner | frontend/src/lib/finance.ts:144-162 | every non-empty bucket's winner is on the frontier |
| Frontier.FrontierEmptyWhenVolatilitiesEqual | frontend/src/lib/finance.ts:139-151 | when all volatilities are equal the frontier is empty |
| Frontier.LastBucketEndsAtMaxVolatility | frontend/src/lib/finance.ts:139-146 | over the reals, the last bucket ends exactly at the greatest volatility |
| Frontier.FrontierBelowMaxVolatility | frontend/src/lib/finance.ts:139-151 | over the reals, every frontier point lies strictly below the population's greatest volatility |
| Valuation.RowValueIsWeightedSum | frontend/src/components/RiskAnalysis.tsx:20-26 | the day's value is the weighted sum of the quotes; the truthiness test changes nothing, and a missing quote counts as 0 |
| Valuation.UniformPriceValue | frontend/src/components/BacktestChart.tsx:27-30 | with every held ticker at price p the value is p times the total weight |
| Valuation.DayReturnCompounds | frontend/src/components/BacktestChart.tsx:50 | compounding a day's value by the return gives the next day's value; from a positive value the return is positive exactly when the value went up |
| Valuation.DailyReturns | frontend/src/components/RiskAnalysis.tsx:35-38 | one return per day after the first, none without history |
| Valuation.DailyReturnsCompound | frontend/src/components/RiskAnalysis.tsx:35-38 | compounding a day's value by its return gives the next day's value; on a positive value the return is positive exactly on an up day |
| Valuation.ReturnsStep | frontend/src/components/BacktestChart.tsx:49-50 | the returns up to day i extend those up to day i-1 by day i's return |
| Risk.Peak | frontend/src/components/RiskAnalysis.tsx:32-41 | the running peak bounds every day so far |
| Risk.PeakStep | frontend/src/components/RiskAnalysis.tsx:41 | the peak moves to the day's value exactly when that value is higher |
| Risk.PeakIsAttained | frontend/src/components/RiskAnalysis.tsx:32-41 | the running peak is the value of one of the days so far |
| Risk.DrawdownRange | frontend/src/components/RiskAnalysis.tsx:42 | a positive value at or below its peak has drawdown in (-1, 0], and 0 exactly at the peak |
| Risk.Drawdowns | frontend/src/components/RiskAnalysis.tsx:40-48 | one drawdown per day after the first |
| Risk.DrawdownsInRange | frontend/src/components/RiskAnalysis.tsx:40-48 | every drawdown from the running peak lies in (-100%, 0%] |
| Risk.DrawdownZeroOnNewHigh | frontend/src/components/RiskAnalysis.tsx:41-42 | a day's drawdown is 0 exactly when no earlier day was higher |
| Risk.MaxDrawdown | frontend/src/components/RiskAnalysis.tsx:33-43 | the deepest drawdown lies in (-1, 0], no day is deeper, and unless 0 it is attained |
| Risk.ValueAtRisk95 | frontend/src/components/RiskAnalysis.tsx:53-55 | absent exactly without returns; otherwise at most ⌊n/20⌋ returns are below it and more than ⌊n/20⌋ are at or below it |
| Risk.ValueAtRiskDeterminedByRank | frontend/src/components/RiskAnalysis.tsx:53-55 | a value with at most ⌊n/20⌋ returns below it and more than ⌊n/20⌋ at or below it is the Value at Risk: the rank conditions fix it uniquely |
| Risk.ValueAtRiskIsAReturn | frontend/src/components/RiskAnalysis.tsx:53-55 | the Value at Risk is one of the returns and lies between the worst and the best |
| Risk.SmallSampleValueAtRiskIsWorst | frontend/src/components/RiskAnalysis.tsx:54-55 | with fewer than 20 returns the Value at Risk is the worst return |
| Risk.ScanDay | frontend/src/components/RiskAnalysis.tsx:35-49 | one iteration keeps the loop state (running peak, returns, deepest drawdown, chart) |
| Risk.ScanDays | frontend/src/components/RiskAnalysis.tsx:29-49 | the loop yields all daily returns, the deepest drawdown and one percent chart point per day after the first |
| Risk.AnalyseRisk | frontend/src/components/RiskAnalysis.tsx:16-62 | null exactly without history or selection; otherwise the deepest drawdown, the Value at Risk of the daily returns (present exactly with two or more days), and the chart labelled by day |
| Risk.MaxDrawdownScenario | frontend/src/components/RiskAnalysis.tsx:32-43 | values 1.0, 1.2, 0.9, 1.1 have deepest drawdown -25% |
| Risk.NeverFallingHasNoDrawdown | frontend/src/components/RiskAnalysis.tsx:41-43 | a never-falling history has deepest drawdown 0 |
| Backtest.WinRate | frontend/src/components/BacktestChart.tsx:53-56 | the win rate is a percentage between 0 and 100 |
| Backtest.ChartData | frontend/src/components/BacktestChart.tsx:23-42 | one point per day with the value's growth in percent, the raw value, and the benchmark compounded once per earlier day |
| Backtest.StatsDay | frontend/src/components/BacktestChart.tsx:49-54 | one iteration keeps the best, worst and up-day count of the returns so far |
| Backtest.ScanReturns | frontend/src/components/BacktestChart.tsx:45-54 | best and worst are the greatest and least daily return (absent with fewer than two days), and the up-day count is the number of positive returns |
| Backtest.SummaryStats | frontend/src/components/BacktestChart.tsx:44-66 | with one day only the benchmark total; otherwise best and worst return in percent, the win rate and the benchmark total, with worst ≤ best and a win rate in [0, 100] |
| Backtest.ChartAndStats | frontend/src/components/BacktestChart.tsx:23-66 | on a non-empty history, the chart per day and the statistics, whose benchmark total is the growth after the last day |
| Backtest.RunBacktest | frontend/src/components/BacktestChart.tsx:16-67 | empty without history or selection; a fault on an empty history; otherwise the chart per day, and statistics giving the best and worst return in percent, the win rate and the benchmark's total growth, with worst ≤ best |
| Backtest.PowBounds | frontend/src/components/BacktestChart.tsx:34 | compounding a positive factor stays positive, a factor below 1 shrinks, and a factor of at least 1 never shrinks |
| Backtest.BenchmarkAfterOneYear | frontend/src/components/BacktestChart.tsx:20-21 | after 252 business days the benchmark's growth equals the annual rate |
| Backtest.BenchmarkNeverFalls | frontend/src/components/BacktestChart.tsx:21-39 | with a non-negative rate the benchmark never falls from one day to the next |

## Left out

- IEEE-754 doubles are not modelled: NaN, ±Infinity and rounding have no
  counterpart over the reals. The `isFinite` guards at
  frontend/src/lib/finance.ts:67 and :115 therefore never fire, and
  `CalculatePortfolioStats` averages every Sharpe ratio.
- Frontier.LastBucketEndsAtMaxVolatility and
  Frontier.FrontierBelowMaxVolatility hold over the reals only. In doubles
  the rounded end of the last bucket (finance.ts:145-146) can exceed the
  greatest volatility, and a point with the greatest volatility can then
  be kept. The example values are under "Greatest volatility" above.
- Frontier.BucketLowIsScaled holds over the reals only. In doubles
  `minVolatility + (i+1) * bucketSize` and
  `(minVolatility + i * bucketSize) + bucketSize` can differ in the last
  place. Adjacent buckets can then overlap by one value or leave a
  one-ulp gap between them.
- Portfolio.GeneratePortfolios: each draw must have a positive sum. An
  all-zero draw has probability 0 under `Math.random`, and in the source it
  would make every weight NaN.
- The default arguments are not modelled; callers pass every value.
  The defaults are `numSimulations = 2000`, `riskFreeRate = 0` and
  `buckets = 20`.
- Frontier.ExtractEfficientFrontier: `buckets` is a natural number. A
  negative or fractional bucket count is not modelled.
- Risk.AnalyseRisk requires every reconstructed daily value to be positive.
  This is what its caller supplies: frontend/app/page.tsx:270 passes the
  backend's `normalized_prices`, which are positive prices after
  `ffill().dropna()` divided by the first row (backend/app/main.py:58, 72),
  and the weights are non-negative shares summing to 1. Two inputs the
  source would still handle with finite numbers are not covered: a value
  of 0 on the last day only (a return and a drawdown of -1), and negative
  values (dividing by a negative peak).
- Backtest.RunBacktest requires every value but the last to be non-zero.
  A zero before the last day makes the source divide by zero
  (BacktestChart.tsx:50), which gives NaN or ±Infinity.
- With a single day the backtest's best and worst days are ∓Infinity and
  its win rate is NaN. The model reports this case as
  `NoDailyReturns(totalBenchmark)`.
- Dates are opaque strings. Both `toLocaleDateString('pt-BR')` and the
  `slice(0, 5)` day/month cut are function parameters.
- A price row is a map from ticker to quote. A ticker literally named
  `Date`, and non-numeric cells of a row, are not modelled.
- `Object.keys` / `Object.entries` order is taken as the record's entry
  order.
- Rendering is not modelled: the JSX, `toFixed` formatting, React state and
  memoisation, tooltips and colours.
- Nothing from page.tsx outside line 70 is modelled. That includes the
  API request, the risk-free-rate input parsing and error handling.
- backend/app/main.py is not part of this model.
  It computes the mean returns and the covariance matrix, which arrive here
  as inputs.
