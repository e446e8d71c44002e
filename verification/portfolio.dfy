/** Monte Carlo portfolio generation (`generatePortfolios` in
    frontend/src/lib/finance.ts): random draws are normalised into a weight
    vector over the asset universe and the portfolio is scored by expected
    return, volatility and Sharpe ratio. */
module Portfolio {
  import opened Base
  import opened RealSeq

  /** A scored candidate portfolio (`PortfolioPoint`). The original field
      `return` is called `ret` here, `return` being a Dafny keyword. */
  datatype PortfolioPoint = PortfolioPoint(volatility: real, ret: real, sharpe: real, weights: Record)

  /** `Record<string, Record<string, number>>`: rows and cells may be missing. */
  type CovarianceMatrix = map<Ticker, map<Ticker, real>>

  /** `covMatrix[a]?.[b] ?? 0`: a missing row or cell counts as covariance 0. */
  function Covariance(cov: CovarianceMatrix, a: Ticker, b: Ticker): real {
    if a in cov && b in cov[a] then cov[a][b] else 0.0
  }

  /** Σ_{c < n} w[r]·w[c]·cov(t_r, t_c): the first `n` terms of row `r` of the
      quadratic form wᵀΣw. */
  function RowTerms(ts: seq<Ticker>, cov: CovarianceMatrix, w: seq<real>, r: nat, n: nat): real
    requires |w| == |ts| && r < |ts| && n <= |ts|
    decreases n
  {
    if n == 0 then 0.0
    else RowTerms(ts, cov, w, r, n - 1) + w[r] * w[n - 1] * Covariance(cov, ts[r], ts[n - 1])
  }

  /** The complete rows `0 .. m-1` of the quadratic form wᵀΣw. */
  function RowsTerms(ts: seq<Ticker>, cov: CovarianceMatrix, w: seq<real>, m: nat): real
    requires |w| == |ts| && m <= |ts|
    decreases m
  {
    if m == 0 then 0.0 else RowsTerms(ts, cov, w, m - 1) + RowTerms(ts, cov, w, m - 1, |ts|)
  }

  /** The portfolio variance Σ_r Σ_c w_r·w_c·cov(t_r, t_c). */
  function Variance(ts: seq<Ticker>, cov: CovarianceMatrix, w: seq<real>): real
    requires |w| == |ts|
  {
    RowsTerms(ts, cov, w, |ts|)
  }

  /** `Math.sqrt(Math.max(0, variance))`: never negative, squares back to the
      variance clamped at 0, and 0 exactly when the variance is not positive. */
  function Volatility(variance: real, sqrt: real -> real): (vol: real)
    requires IsSqrt(sqrt)
    ensures 0.0 <= vol
    ensures vol * vol == ClampAtZero(variance)
    ensures vol == 0.0 <==> variance <= 0.0
  {
    sqrt(ClampAtZero(variance))
  }

  /** `portVol > 0 ? (portReturn - rf) / portVol : 0`: the excess return per
      unit of volatility, and exactly 0 when there is no volatility. The
      `isFinite` guard of the original never fires over the reals. */
  function SharpeRatio(ret: real, rf: real, vol: real): (s: real)
    ensures vol > 0.0 ==> s * vol == ret - rf
    ensures vol <= 0.0 ==> s == 0.0
  {
    if vol > 0.0 then (ret - rf) / vol else 0.0
  }

  /** `draws.map(w => w / sumWeights)`, one weight per draw; `NormaliseTimesTotal`
      and `NormaliseSumsToOne` say what the weights are. */
  function Normalise(draws: seq<real>): (w: seq<real>)
    requires |draws| == 0 || Sum(draws) != 0.0
    ensures |w| == |draws|
  {
    Quotients(draws, Sum(draws))
  }

  /** Each weight times the draw total gives back its draw. */
  lemma {:induction false} NormaliseTimesTotal(draws: seq<real>)
    requires |draws| == 0 || Sum(draws) != 0.0
    ensures forall i {:trigger Normalise(draws)[i]} :: 0 <= i < |draws| ==> Normalise(draws)[i] * Sum(draws) == draws[i]
  {
    if |draws| > 0 {
      var s := Sum(draws);
      QuotientsTimes(draws, s);
      forall i | 0 <= i < |draws|
        ensures Normalise(draws)[i] * s == draws[i]
      {
        assert Normalise(draws)[i] == Quotients(draws, s)[i];
      }
    }
  }

  /** The weights of a non-empty draw sum to 1. */
  lemma {:induction false} NormaliseSumsToOne(draws: seq<real>)
    requires |draws| == 0 || Sum(draws) != 0.0
    ensures |draws| > 0 ==> Sum(Normalise(draws)) == 1.0
  {
    if |draws| > 0 {
      SumQuotients(draws, Sum(draws));
      SelfQuotient(Sum(draws));
    }
  }

  lemma SelfQuotient(x: real)
    requires x != 0.0
    ensures x / x == 1.0
  {
  }

  lemma ShareSign(w: real, total: real, x: real)
    requires w * total == x && 0.0 < total
    ensures 0.0 <= w <==> 0.0 <= x
  {
  }

  /** What `Math.random()` delivers for one portfolio over `n` assets: `n`
      values in [0, 1), not all zero. */
  ghost predicate IsDraw(d: seq<real>, n: nat) {
    && |d| == n
    && (forall i :: 0 <= i < n ==> 0.0 <= d[i] < 1.0)
    && (n > 0 ==> Sum(d) > 0.0)
  }

  /** `p` is the point scored from draw `d` over the universe `mu`: its weights
      are the normalised draws, keyed by the tickers of `mu`; its return is
      Σ mu[t]·w[t]; its volatility is the non-negative square root of the
      variance clamped at 0; its Sharpe ratio is the excess return over `rf`
      per unit of volatility, or 0 when the volatility is 0. */
  ghost predicate IsScoredDraw(p: PortfolioPoint, mu: Record, cov: CovarianceMatrix, rf: real, d: seq<real>) {
    && IsDraw(d, |mu|)
    && Keys(p.weights) == Keys(mu)
    && Values(p.weights) == Normalise(d)
    && p.ret == Dot(Values(mu), Values(p.weights))
    && 0.0 <= p.volatility
    && p.volatility * p.volatility == ClampAtZero(Variance(Keys(mu), cov, Values(p.weights)))
    && (p.volatility == 0.0 ==> p.sharpe == 0.0)
    && (p.volatility > 0.0 ==> p.sharpe * p.volatility == p.ret - rf)
  }

  /** Step 2 of the simulation loop: `portReturn += meanReturns[ticker] * weights[idx]`
      over the tickers in order; the result is the dot product of mean
      returns and weights. */
  method AccumulateReturn(mu: Record, weights: seq<real>) returns (portReturn: real)
    requires |weights| == |mu|
    ensures portReturn == Dot(Values(mu), weights)
  {
    portReturn := 0.0;
    var idx := 0;
    while idx < |mu|
      invariant 0 <= idx <= |mu|
      invariant portReturn == Dot(Values(mu)[..idx], weights[..idx])
    {
      assert Values(mu)[..idx + 1][..idx] == Values(mu)[..idx];
      assert weights[..idx + 1][..idx] == weights[..idx];
      portReturn := portReturn + mu[idx].val * weights[idx];
      idx := idx + 1;
    }
    assert Values(mu)[..idx] == Values(mu) && weights[..idx] == weights;
  }

  /** Step 3 of the simulation loop: the double loop over rows and columns
      adding `weights[r] * weights[c] * cov`; the result is the quadratic form
      wᵀΣw with missing covariances counted as 0. */
  method AccumulateVariance(tickers: seq<Ticker>, cov: CovarianceMatrix, weights: seq<real>)
    returns (portVariance: real)
    requires |weights| == |tickers|
    ensures portVariance == Variance(tickers, cov, weights)
  {
    portVariance := 0.0;
    var r := 0;
    while r < |tickers|
      invariant 0 <= r <= |tickers|
      invariant portVariance == RowsTerms(tickers, cov, weights, r)
    {
      var c := 0;
      while c < |tickers|
        invariant 0 <= c <= |tickers|
        invariant portVariance == RowsTerms(tickers, cov, weights, r) + RowTerms(tickers, cov, weights, r, c)
      {
        var cv := Covariance(cov, tickers[r], tickers[c]);
        portVariance := portVariance + weights[r] * weights[c] * cv;
        c := c + 1;
      }
      r := r + 1;
    }
  }

  /** The body of the simulation loop once the weights are drawn: the weight
      map keyed by ticker, the return, the volatility and the Sharpe ratio
      (`rf` already converted to a decimal rate). */
  method ScorePortfolio(mu: Record, cov: CovarianceMatrix, rf: real, weights: seq<real>, sqrt: real -> real)
    returns (p: PortfolioPoint)
    requires |weights| == |mu|
    requires IsSqrt(sqrt)
    ensures Keys(p.weights) == Keys(mu) && Values(p.weights) == weights
    ensures p.ret == Dot(Values(mu), weights)
    ensures 0.0 <= p.volatility
    ensures p.volatility * p.volatility == ClampAtZero(Variance(Keys(mu), cov, weights))
    ensures p.volatility == 0.0 <==> Variance(Keys(mu), cov, weights) <= 0.0
    ensures p.volatility == 0.0 ==> p.sharpe == 0.0
    ensures p.volatility > 0.0 ==> p.sharpe * p.volatility == p.ret - rf
  {
    var weightMap := WithValues(mu, weights);
    var portReturn := AccumulateReturn(mu, weights);
    var portVariance := AccumulateVariance(Keys(mu), cov, weights);
    var portVol := Volatility(portVariance, sqrt);
    var sharpe := SharpeRatio(portReturn, rf, portVol);
    p := PortfolioPoint(portVol, portReturn, sharpe, weightMap);
  }

  /** `generatePortfolios(meanReturns, covMatrix, numSimulations, riskFreeRate)`
      with the random numbers supplied as `draws`, one sequence per portfolio.
      The risk-free rate arrives in percent. */
  method GeneratePortfolios(mu: Record, cov: CovarianceMatrix, numSimulations: nat, riskFreeRate: real,
                            draws: seq<seq<real>>, sqrt: real -> real)
    returns (portfolios: seq<PortfolioPoint>)
    requires |draws| == numSimulations
    requires forall k :: 0 <= k < |draws| ==> IsDraw(draws[k], |mu|)
    requires IsSqrt(sqrt)
    ensures |portfolios| == numSimulations
    ensures forall k :: 0 <= k < numSimulations ==>
              IsScoredDraw(portfolios[k], mu, cov, riskFreeRate / 100.0, draws[k])
  {
    var rf := riskFreeRate / 100.0;
    portfolios := [];
    var i := 0;
    while i < numSimulations
      invariant 0 <= i <= numSimulations
      invariant |portfolios| == i
      invariant forall k :: 0 <= k < i ==> IsScoredDraw(portfolios[k], mu, cov, rf, draws[k])
    {
      var weights := Normalise(draws[i]);
      var p := ScorePortfolio(mu, cov, rf, weights, sqrt);
      assert IsScoredDraw(p, mu, cov, rf, draws[i]);
      var next := portfolios + [p];
      forall k | 0 <= k <= i
        ensures IsScoredDraw(next[k], mu, cov, rf, draws[k])
      {
        if k < i {
          assert next[k] == portfolios[k];
        }
      }
      portfolios := next;
      i := i + 1;
    }
  }

  /** Weights holding the normalised draw `d` (as those of a point with
      `IsScoredDraw` do) are shares of the draw total: each is non-negative
      and, times the total, gives its draw. */
  lemma DrawnWeightsAreShares(ws: Record, d: seq<real>)
    requires IsDraw(d, |ws|) && Values(ws) == Normalise(d)
    ensures forall i {:trigger ws[i]} :: 0 <= i < |ws| ==> 0.0 <= ws[i].val && ws[i].val * Sum(d) == d[i]
  {
    NormaliseTimesTotal(d);
    var w := Normalise(d);
    forall i {:trigger ws[i]} | 0 <= i < |ws|
      ensures 0.0 <= ws[i].val && ws[i].val * Sum(d) == d[i]
    {
      assert ws[i].val == Values(ws)[i] == w[i];
      ShareSign(w[i], Sum(d), d[i]);
    }
  }

  /** Two uncorrelated assets drawn equally: return 0.15 and variance
      0.25·0.04 + 0.25·0.09 = 0.0325. */
  lemma TwoAssetScenario(p: PortfolioPoint, rf: real, d: seq<real>)
    requires IsScoredDraw(p, [Entry("A", 0.10), Entry("B", 0.20)],
                          map["A" := map["A" := 0.04, "B" := 0.0], "B" := map["A" := 0.0, "B" := 0.09]], rf, d)
    requires d[0] == d[1] > 0.0
    ensures p.ret == 0.15
    ensures p.volatility * p.volatility == 0.0325
  {
    var mu: Record := [Entry("A", 0.10), Entry("B", 0.20)];
    var cov := map["A" := map["A" := 0.04, "B" := 0.0], "B" := map["A" := 0.0, "B" := 0.09]];
    assert |p.weights| == |Keys(mu)| == 2;
    DrawnWeightsAreShares(p.weights, d);
    var w := Values(p.weights);
    assert |d| == 2 && |w| == 2;
    assert Sum(d[..1]) == d[0] by { assert d[..1][..0] == []; }
    assert Sum(d) == 2.0 * d[0];
    assert w[0] == p.weights[0].val && w[1] == p.weights[1].val;
    HalfShare(w[0], Sum(d), d[0]);
    HalfShare(w[1], Sum(d), d[1]);
    assert w == [0.5, 0.5];
    assert Values(mu) == [0.10, 0.20];
    assert Dot([0.10], [0.5]) == 0.05 by { assert [0.10][..0] == [] && [0.5][..0] == []; }
    assert [0.10, 0.20][..1] == [0.10] && w[..1] == [0.5];
    var ts := Keys(mu);
    assert ts == ["A", "B"];
    assert RowTerms(ts, cov, w, 0, 2) == 0.25 * 0.04;
    assert RowTerms(ts, cov, w, 1, 2) == 0.25 * 0.09;
    assert Variance(ts, cov, w) == 0.0325;
  }

  /** A share `w` of a total that is twice its part is one half. */
  lemma HalfShare(w: real, total: real, x: real)
    requires w * total == x && total == 2.0 * x && 0.0 < x
    ensures w == 0.5
  {
    CancelPositive(w, 0.5, total);
  }

  /** One asset with mean return 0.1 and variance 0.01 at a zero risk-free
      rate has Sharpe ratio 0.1 / 0.1 = 1. */
  lemma SingleAssetSharpeScenario(p: PortfolioPoint, d: seq<real>)
    requires IsScoredDraw(p, [Entry("A", 0.1)], map["A" := map["A" := 0.01]], 0.0, d)
    ensures p.sharpe == 1.0
  {
    var mu: Record := [Entry("A", 0.1)];
    var cov := map["A" := map["A" := 0.01]];
    NormaliseSumsToOne(d);
    var w := Values(p.weights);
    assert |w| == 1;
    assert Sum(w) == w[0] by { assert w[..0] == []; }
    assert w == [1.0];
    var ts := Keys(mu);
    assert ts == ["A"];
    assert RowTerms(ts, cov, w, 0, 1) == 1.0 * 1.0 * 0.01;
    assert RowsTerms(ts, cov, w, 1) == 0.01;
    assert Variance(ts, cov, w) == 0.01;
    assert p.volatility * p.volatility == 0.1 * 0.1;
    SquareRootUnique(p.volatility, 0.1);
  }
}
