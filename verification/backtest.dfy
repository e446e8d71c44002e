/** The backtest of the selected portfolio against the risk-free benchmark
    (the `chartData`/`stats` memo of
    frontend/src/components/BacktestChart.tsx): the portfolio's value and
    the compounded benchmark on every day, and the best day, the worst day,
    the share of up days and the benchmark's total growth. */
module Backtest {
  import opened Base
  import opened RealSeq
  import opened Portfolio
  import opened Valuation

  /** A chart point: the day, the portfolio's growth and the benchmark's
      growth in percent, and the portfolio's value. */
  datatype BacktestPoint = BacktestPoint(date: string, value: real, benchmark: real, rawPrice: real)

  /** The statistics block. With a single day the source divides 0 by 0 for
      the win rate and leaves the best and worst day at -Infinity and
      Infinity; only the total benchmark growth is a number then. */
  datatype BacktestStats =
    | DailyStats(bestDay: real, worstDay: real, winRate: real, totalBenchmark: real)
    | NoDailyReturns(totalBenchmark: real)

  /** What the memo produces: the chart and, when there is data, its
      statistics. An empty history with a selected portfolio makes the memo
      read a property of `data[-1]`, which is `undefined`, and throw. */
  datatype BacktestOutcome =
    | Rendered(chartData: seq<BacktestPoint>, stats: Option<BacktestStats>)
    | EmptyHistoryFault

  /** `root` behaves as `x => Math.pow(x, 1 / 252)` on the positive reals:
      positive, and 252 compoundings of it give back `x`. This is all the
      model assumes of `Math.pow`. */
  ghost predicate IsRoot252(root: real -> real) {
    forall x: real {:trigger root(x)} :: 0.0 < x ==> 0.0 < root(x) && Pow(root(x), 252) == x
  }

  /** `Math.pow(1 + riskFreeRate / 100, 1 / 252)`: the daily factor of the
      annual rate over 252 business days. */
  function DailyFactor(root: real -> real, riskFreeRate: real): real {
    root(1.0 + riskFreeRate / 100.0)
  }

  /** `(benchmarkValue - 1) * 100` on day `i`: the benchmark starts at 1 and
      is compounded by the daily factor once per day. */
  function BenchmarkPercent(f: real, i: nat): real {
    (Pow(f, i) - 1.0) * 100.0
  }

  /** `(positiveDays / (data.length - 1)) * 100`: the percentage of up days. */
  function WinRate(rets: seq<real>): (w: real)
    requires |rets| > 0
    ensures 0.0 <= w <= 100.0
  {
    var n := |rets| as real;
    var c := CountPositive(rets) as real;
    DivideBounds(n, 0.0, c, 1.0);
    c / n * 100.0
  }

  /** The `historicalData.map` with the running benchmark: one point per day,
      the portfolio's value and growth and the benchmark compounded once per
      day before it. */
  method ChartData(rows: seq<PriceRow>, weights: seq<Entry>, dailyFactor: real, dateLabel: string -> string)
    returns (data: seq<BacktestPoint>)
    ensures |data| == |rows|
    ensures forall i :: 0 <= i < |rows| ==>
              data[i] == BacktestPoint(dateLabel(rows[i].date), (RowValue(rows[i], weights) - 1.0) * 100.0,
                                       BenchmarkPercent(dailyFactor, i), RowValue(rows[i], weights))
  {
    var cumulativeBenchmark := 1.0;
    data := [];
    var i := 0;
    while i < |rows|
      invariant 0 <= i <= |rows| && |data| == i
      invariant cumulativeBenchmark == Pow(dailyFactor, i)
      invariant forall k :: 0 <= k < i ==>
                  data[k] == BacktestPoint(dateLabel(rows[k].date), (RowValue(rows[k], weights) - 1.0) * 100.0,
                                           BenchmarkPercent(dailyFactor, k), RowValue(rows[k], weights))
    {
      var portfolioValue := RowValue(rows[i], weights);
      var benchmarkValue := cumulativeBenchmark;
      cumulativeBenchmark := cumulativeBenchmark * dailyFactor;
      data := data + [BacktestPoint(dateLabel(rows[i].date), (portfolioValue - 1.0) * 100.0,
                                    (benchmarkValue - 1.0) * 100.0, portfolioValue)];
      i := i + 1;
    }
  }

  /** The state of the statistics loop once days `1 .. i-1` are done. `None`
      stands for the initial -Infinity of `bestDay` and Infinity of
      `worstDay`, which any return replaces. */
  ghost predicate StatsUpTo(raw: seq<real>, i: nat, best: Option<real>, worst: Option<real>, positiveDays: nat)
    requires NonZeroBeforeLast(raw)
  {
    var rs := DailyReturns(raw);
    && 1 <= i <= |raw|
    && best == (if i == 1 then None else Some(Max(rs[..i - 1])))
    && worst == (if i == 1 then None else Some(Min(rs[..i - 1])))
    && positiveDays == CountPositive(rs[..i - 1])
  }

  /** One iteration of the statistics loop, for day `i`. */
  method StatsDay(raw: seq<real>, i: nat, best: Option<real>, worst: Option<real>, positiveDays: nat)
    returns (best': Option<real>, worst': Option<real>, positiveDays': nat)
    requires NonZeroBeforeLast(raw) && i < |raw|
    requires StatsUpTo(raw, i, best, worst, positiveDays)
    ensures StatsUpTo(raw, i + 1, best', worst', positiveDays')
  {
    ghost var rs := DailyReturns(raw);
    ReturnsStep(raw, i);
    var dailyReturn := (raw[i] - raw[i - 1]) / raw[i - 1];
    best', worst', positiveDays' := best, worst, positiveDays;
    if best'.None? || dailyReturn > best'.value {
      best' := Some(dailyReturn);
    }
    if worst'.None? || dailyReturn < worst'.value {
      worst' := Some(dailyReturn);
    }
    if dailyReturn > 0.0 {
      positiveDays' := positiveDays' + 1;
    }
    CountPositiveSnoc(rs[..i - 1], dailyReturn);
    if i > 1 {
      MaxSnoc(rs[..i - 1], dailyReturn);
      MinSnoc(rs[..i - 1], dailyReturn);
    } else {
      assert rs[..i] == [dailyReturn];
    }
  }

  /** The statistics loop over days `1 .. n-1`: the best and worst daily
      return (absent without any return) and the number of up days. */
  method ScanReturns(raw: seq<real>) returns (best: Option<real>, worst: Option<real>, positiveDays: nat)
    requires NonZeroBeforeLast(raw)
    ensures |raw| < 2 ==> best.None? && worst.None?
    ensures |raw| >= 2 ==> best == Some(Max(DailyReturns(raw))) && worst == Some(Min(DailyReturns(raw)))
    ensures positiveDays == CountPositive(DailyReturns(raw))
  {
    best, worst, positiveDays := None, None, 0;
    if |raw| == 0 {
      assert DailyReturns(raw) == [];
      return;
    }
    StatsStart(raw);
    var i := 1;
    while i < |raw|
      invariant 1 <= i <= |raw|
      invariant StatsUpTo(raw, i, best, worst, positiveDays)
      decreases |raw| - i
    {
      best, worst, positiveDays := StatsDay(raw, i, best, worst, positiveDays);
      i := i + 1;
    }
    StatsComplete(raw, best, worst, positiveDays);
  }

  /** Before any day is done there is no best or worst return and no up
      day. */
  lemma StatsStart(raw: seq<real>)
    requires NonZeroBeforeLast(raw) && |raw| > 0
    ensures StatsUpTo(raw, 1, None, None, 0)
  {
    assert DailyReturns(raw)[..0] == [];
  }

  /** Once every day is done, the loop state holds the statistics of all
      the daily returns. */
  lemma StatsComplete(raw: seq<real>, best: Option<real>, worst: Option<real>, positiveDays: nat)
    requires NonZeroBeforeLast(raw) && |raw| > 0
    requires StatsUpTo(raw, |raw|, best, worst, positiveDays)
    ensures |raw| < 2 ==> best.None? && worst.None?
    ensures |raw| >= 2 ==> best == Some(Max(DailyReturns(raw))) && worst == Some(Min(DailyReturns(raw)))
    ensures positiveDays == CountPositive(DailyReturns(raw))
  {
    assert DailyReturns(raw)[..|raw| - 1] == DailyReturns(raw);
  }

  /** The statistics block once the chart exists (`raw` holds each day's
      `rawPrice`, and `totalBenchmark` the last day's benchmark growth). */
  method SummaryStats(raw: seq<real>, totalBenchmark: real) returns (st: BacktestStats)
    requires NonZeroBeforeLast(raw) && |raw| > 0
    ensures |raw| == 1 ==> st == NoDailyReturns(totalBenchmark)
    ensures |raw| >= 2 ==>
              st == DailyStats(Max(DailyReturns(raw)) * 100.0, Min(DailyReturns(raw)) * 100.0,
                               WinRate(DailyReturns(raw)), totalBenchmark)
    ensures st.DailyStats? ==> st.worstDay <= st.bestDay && 0.0 <= st.winRate <= 100.0
  {
    var best, worst, positiveDays := ScanReturns(raw);
    if |raw| == 1 {
      return NoDailyReturns(totalBenchmark);
    }
    ghost var rets := DailyReturns(raw);
    assert Min(rets) <= rets[0] <= Max(rets);
    var winRate := (positiveDays as real) / ((|raw| - 1) as real) * 100.0;
    assert winRate == WinRate(rets);
    st := DailyStats(best.value * 100.0, worst.value * 100.0, winRate, totalBenchmark);
  }

  /** The memo's work on a non-empty history: the chart, then the
      statistics, whose total benchmark growth is the last day's. */
  method ChartAndStats(rows: seq<PriceRow>, weights: seq<Entry>, dailyFactor: real, dateLabel: string -> string)
    returns (data: seq<BacktestPoint>, st: BacktestStats)
    requires |rows| > 0 && NonZeroBeforeLast(DailyValues(rows, weights))
    ensures |data| == |rows|
    ensures forall i :: 0 <= i < |rows| ==>
              data[i] == BacktestPoint(dateLabel(rows[i].date), (DailyValues(rows, weights)[i] - 1.0) * 100.0,
                                       BenchmarkPercent(dailyFactor, i), DailyValues(rows, weights)[i])
    ensures |rows| == 1 ==> st == NoDailyReturns(0.0)
    ensures |rows| >= 2 ==>
              st == DailyStats(Max(DailyReturns(DailyValues(rows, weights))) * 100.0,
                               Min(DailyReturns(DailyValues(rows, weights))) * 100.0,
                               WinRate(DailyReturns(DailyValues(rows, weights))),
                               BenchmarkPercent(dailyFactor, |rows| - 1))
    ensures st.DailyStats? ==> st.worstDay <= st.bestDay && 0.0 <= st.winRate <= 100.0
  {
    data := ChartData(rows, weights, dailyFactor, dateLabel);
    var raw := seq(|data|, i requires 0 <= i < |data| => data[i].rawPrice);
    assert raw == DailyValues(rows, weights);
    var totalBenchmark := data[|data| - 1].benchmark;
    assert BenchmarkPercent(dailyFactor, 0) == 0.0;
    st := SummaryStats(raw, totalBenchmark);
  }

  /** The backtest memo. Without history or without a selected portfolio the
      chart is empty and there are no statistics; an empty history throws;
      otherwise one chart point per day, and statistics whose best day is
      never below the worst and whose win rate is a percentage. */
  method RunBacktest(history: Option<seq<PriceRow>>, selected: Option<PortfolioPoint>, riskFreeRate: real,
                     root252: real -> real, dateLabel: string -> string)
    returns (b: BacktestOutcome)
    requires history.Some? && selected.Some? ==>
               NonZeroBeforeLast(DailyValues(history.value, selected.value.weights))
    ensures history.None? || selected.None? ==> b == Rendered([], None)
    ensures b.EmptyHistoryFault? <==> history.Some? && selected.Some? && |history.value| == 0
    ensures b.Rendered? && history.Some? && selected.Some? ==>
              && |b.chartData| == |history.value|
              && forall i :: 0 <= i < |history.value| ==>
                   var vs := DailyValues(history.value, selected.value.weights);
                   b.chartData[i] == BacktestPoint(dateLabel(history.value[i].date), (vs[i] - 1.0) * 100.0,
                                                   BenchmarkPercent(DailyFactor(root252, riskFreeRate), i), vs[i])
    ensures b.Rendered? && history.Some? && selected.Some? && |history.value| > 0 ==> b.stats.Some?
    ensures b.Rendered? && history.Some? && selected.Some? && |history.value| == 1 ==>
              b.stats.value == NoDailyReturns(0.0)
    ensures b.Rendered? && history.Some? && selected.Some? && |history.value| >= 2 ==>
              var rets := DailyReturns(DailyValues(history.value, selected.value.weights));
              b.stats.value == DailyStats(Max(rets) * 100.0, Min(rets) * 100.0, WinRate(rets),
                                          BenchmarkPercent(DailyFactor(root252, riskFreeRate), |history.value| - 1))
    ensures b.Rendered? && b.stats.Some? && b.stats.value.DailyStats? ==>
              b.stats.value.worstDay <= b.stats.value.bestDay && 0.0 <= b.stats.value.winRate <= 100.0
  {
    if history.None? || selected.None? {
      return Rendered([], None);
    }
    var rows := history.value;
    if |rows| == 0 {
      return EmptyHistoryFault;
    }
    var dailyFactor := DailyFactor(root252, riskFreeRate);
    var data, st := ChartAndStats(rows, selected.value.weights, dailyFactor, dateLabel);
    b := Rendered(data, Some(st));
  }

  /** Compounding 0 < f < 1 lowers the value, and any f >= 1 never does. */
  lemma {:induction false} PowBounds(f: real, n: nat)
    requires 0.0 < f
    ensures 0.0 < Pow(f, n)
    ensures f < 1.0 && n > 0 ==> Pow(f, n) < 1.0
    ensures 1.0 <= f ==> Pow(f, n) <= Pow(f, n + 1)
    decreases n
  {
    if n > 0 {
      PowBounds(f, n - 1);
      MulLeft(Pow(f, n - 1), 0.0, f);
      if f < 1.0 {
        MulLeft(f, Pow(f, n - 1), 1.0);
      }
    }
    if 1.0 <= f {
      MulLeft(Pow(f, n), 1.0, f);
    }
  }

  /** Compounding the daily factor over a business year of 252 days
      reproduces the annual rate: the benchmark's growth on day 252 is
      `riskFreeRate` percent. */
  lemma BenchmarkAfterOneYear(root: real -> real, riskFreeRate: real)
    requires IsRoot252(root) && riskFreeRate > -100.0
    ensures BenchmarkPercent(DailyFactor(root, riskFreeRate), 252) == riskFreeRate
  {
    var x := 1.0 + riskFreeRate / 100.0;
    assert Pow(root(x), 252) == x;
  }

  /** With a non-negative rate the benchmark never falls from one day to
      the next. */
  lemma BenchmarkNeverFalls(root: real -> real, riskFreeRate: real, i: nat)
    requires IsRoot252(root) && riskFreeRate >= 0.0
    ensures BenchmarkPercent(DailyFactor(root, riskFreeRate), i)
         <= BenchmarkPercent(DailyFactor(root, riskFreeRate), i + 1)
  {
    var x := 1.0 + riskFreeRate / 100.0;
    var f := root(x);
    assert Pow(f, 252) == x;
    PowBounds(f, 252);
    PowBounds(f, i);
  }
}
