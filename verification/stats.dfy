/** Aggregate statistics of a simulated population
    (`calculatePortfolioStats` in frontend/src/lib/finance.ts). */
module PortfolioStatistics {
  import opened RealSeq
  import opened Portfolio

  datatype PortfolioStats = PortfolioStats(
    avgReturn: real, avgVolatility: real, avgSharpe: real,
    maxReturn: real, minReturn: real,
    maxVolatility: real, minVolatility: real)

  function Returns(ps: seq<PortfolioPoint>): (xs: seq<real>)
    ensures |xs| == |ps| && forall i :: 0 <= i < |ps| ==> xs[i] == ps[i].ret
  {
    seq(|ps|, i requires 0 <= i < |ps| => ps[i].ret)
  }

  function Volatilities(ps: seq<PortfolioPoint>): (xs: seq<real>)
    ensures |xs| == |ps| && forall i :: 0 <= i < |ps| ==> xs[i] == ps[i].volatility
  {
    seq(|ps|, i requires 0 <= i < |ps| => ps[i].volatility)
  }

  function Sharpes(ps: seq<PortfolioPoint>): (xs: seq<real>)
    ensures |xs| == |ps| && forall i :: 0 <= i < |ps| ==> xs[i] == ps[i].sharpe
  {
    seq(|ps|, i requires 0 <= i < |ps| => ps[i].sharpe)
  }

  /** `calculatePortfolioStats`: all zeros for an empty population;
      otherwise each average is the arithmetic mean of its values and lies
      between its extremes, and the extremes bound every member (and are
      attained, by `ExtremesAreAttained`). Every Sharpe ratio is finite over
      the reals, so the `isFinite` filter keeps them all. */
  function CalculatePortfolioStats(ps: seq<PortfolioPoint>): (s: PortfolioStats)
    ensures |ps| == 0 ==> s == PortfolioStats(0.0, 0.0, 0.0, 0.0, 0.0, 0.0, 0.0)
    ensures |ps| > 0 ==> IsMeanOf(s.avgReturn, Returns(ps))
    ensures |ps| > 0 ==> IsMeanOf(s.avgVolatility, Volatilities(ps))
    ensures |ps| > 0 ==> IsMeanOf(s.avgSharpe, Sharpes(ps))
    ensures |ps| > 0 ==> s.minReturn <= s.avgReturn <= s.maxReturn
    ensures |ps| > 0 ==> s.minVolatility <= s.avgVolatility <= s.maxVolatility
    ensures |ps| > 0 ==> Min(Sharpes(ps)) <= s.avgSharpe <= Max(Sharpes(ps))
    ensures forall i :: 0 <= i < |ps| ==> s.minReturn <= ps[i].ret <= s.maxReturn
    ensures forall i :: 0 <= i < |ps| ==> s.minVolatility <= ps[i].volatility <= s.maxVolatility
  {
    if |ps| == 0 then PortfolioStats(0.0, 0.0, 0.0, 0.0, 0.0, 0.0, 0.0)
    else
      var rets := Returns(ps);
      var volatilities := Volatilities(ps);
      var sharpes := Sharpes(ps);
      MeanBetweenMinMax(rets);
      MeanBetweenMinMax(volatilities);
      MeanBetweenMinMax(sharpes);
      MeanTimesCount(rets);
      MeanTimesCount(volatilities);
      MeanTimesCount(sharpes);
      PortfolioStats(
        Mean(rets), Mean(volatilities), Mean(sharpes),
        Max(rets), Min(rets),
        Max(volatilities), Min(volatilities))
  }

  /** Each extreme is the return or volatility of some member. */
  lemma ExtremesAreAttained(ps: seq<PortfolioPoint>)
    requires |ps| > 0
    ensures exists i :: 0 <= i < |ps| && ps[i].ret == CalculatePortfolioStats(ps).maxReturn
    ensures exists i :: 0 <= i < |ps| && ps[i].ret == CalculatePortfolioStats(ps).minReturn
    ensures exists i :: 0 <= i < |ps| && ps[i].volatility == CalculatePortfolioStats(ps).maxVolatility
    ensures exists i :: 0 <= i < |ps| && ps[i].volatility == CalculatePortfolioStats(ps).minVolatility
  {
    var rets, volatilities := Returns(ps), Volatilities(ps);
    MaxIsElement(rets);
    MinIsElement(rets);
    MaxIsElement(volatilities);
    MinIsElement(volatilities);
    var a :| 0 <= a < |ps| && rets[a] == Max(rets);
    var b :| 0 <= b < |ps| && rets[b] == Min(rets);
    var c :| 0 <= c < |ps| && volatilities[c] == Max(volatilities);
    var d :| 0 <= d < |ps| && volatilities[d] == Min(volatilities);
  }
}
