/** Picking one portfolio out of a simulated population:
    `findMaxSharpePortfolio` and `findMinVolatilityPortfolio` in
    frontend/src/lib/finance.ts, and the default selection that
    frontend/app/page.tsx makes after a simulation run. */
module Selection {
  import opened Base
  import opened Ordering
  import opened Portfolio

  function SharpeOf(p: PortfolioPoint): real { p.sharpe }

  /** Lower volatility ranks higher: `cur.volatility < best.volatility` is
      `-cur.volatility > -best.volatility`. */
  function CalmnessOf(p: PortfolioPoint): real { -p.volatility }

  /** `findMaxSharpePortfolio`: null for an empty population, otherwise the
      first point with the greatest Sharpe ratio. */
  function FindMaxSharpePortfolio(ps: seq<PortfolioPoint>): (r: Option<PortfolioPoint>)
    ensures r.None? <==> |ps| == 0
    ensures r.Some? ==> exists k :: 0 <= k < |ps| && ps[k] == r.value
                                    && (forall j :: 0 <= j < |ps| ==> ps[j].sharpe <= ps[k].sharpe)
                                    && (forall j :: 0 <= j < k ==> ps[j].sharpe < ps[k].sharpe)
  {
    if |ps| == 0 then None
    else
      var k := FirstArgMax(ps, SharpeOf);
      assert IsFirstArgMax(ps, SharpeOf, k, |ps|);
      Some(ps[k])
  }

  /** `findMinVolatilityPortfolio`: null for an empty population, otherwise
      the first point with the least volatility. */
  function FindMinVolatilityPortfolio(ps: seq<PortfolioPoint>): (r: Option<PortfolioPoint>)
    ensures r.None? <==> |ps| == 0
    ensures r.Some? ==> exists k :: 0 <= k < |ps| && ps[k] == r.value
                                    && (forall j :: 0 <= j < |ps| ==> ps[k].volatility <= ps[j].volatility)
                                    && (forall j :: 0 <= j < k ==> ps[k].volatility < ps[j].volatility)
  {
    if |ps| == 0 then None
    else
      var k := FirstArgMax(ps, CalmnessOf);
      assert IsFirstArgMax(ps, CalmnessOf, k, |ps|);
      Some(ps[k])
  }

  /** The default selection after a run (`simPoints.reduce((prev, current) =>
      (prev.sharpe > current.sharpe) ? prev : current)` when the run produced
      points): a greatest Sharpe ratio again, but on a tie the LAST such point
      is kept. */
  function DefaultSelection(ps: seq<PortfolioPoint>): (r: Option<PortfolioPoint>)
    ensures r.None? <==> |ps| == 0
    ensures r.Some? ==> exists k :: 0 <= k < |ps| && ps[k] == r.value
                                    && (forall j :: 0 <= j < |ps| ==> ps[j].sharpe <= ps[k].sharpe)
                                    && (forall j :: k < j < |ps| ==> ps[j].sharpe < ps[k].sharpe)
  {
    if |ps| == 0 then None
    else
      var k := LastArgMax(ps, SharpeOf);
      assert IsLastArgMax(ps, SharpeOf, k, |ps|);
      Some(ps[k])
  }

  /** The default selection has the same Sharpe ratio as the point
      `findMaxSharpePortfolio` reports: the two differ only in tie-breaking. */
  lemma DefaultSelectionAgreesOnSharpe(ps: seq<PortfolioPoint>)
    requires |ps| > 0
    ensures FindMaxSharpePortfolio(ps).value.sharpe == DefaultSelection(ps).value.sharpe
  {
    ArgMaxKeysAgree(ps, SharpeOf);
  }

  /** When a single point carries the greatest Sharpe ratio, both selections
      pick that very point. */
  lemma SelectionsAgreeOnUniqueBest(ps: seq<PortfolioPoint>, k: nat)
    requires k < |ps|
    requires forall j :: 0 <= j < |ps| && j != k ==> ps[j].sharpe < ps[k].sharpe
    ensures FindMaxSharpePortfolio(ps) == Some(ps[k])
    ensures DefaultSelection(ps) == Some(ps[k])
  {
    ArgMaxAgreeOnUniqueMax(ps, SharpeOf, k);
  }

  /** Two points with equal Sharpe ratio: `findMaxSharpePortfolio` keeps the
      first, the default selection the second. */
  lemma TieBreaksDiffer(a: PortfolioPoint, b: PortfolioPoint)
    requires a.sharpe == b.sharpe && a != b
    ensures FindMaxSharpePortfolio([a, b]) == Some(a)
    ensures DefaultSelection([a, b]) == Some(b)
  {
    var ps := [a, b];
    var f := FirstArgMax(ps, SharpeOf);
    var l := LastArgMax(ps, SharpeOf);
    assert SharpeOf(ps[0]) == SharpeOf(ps[1]);
    assert f == 0;
    assert l == 1;
  }
}
