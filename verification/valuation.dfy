/** The value of a portfolio over the price history, as both the risk panel
    (frontend/src/components/RiskAnalysis.tsx) and the backtest chart
    (frontend/src/components/BacktestChart.tsx) reconstruct it, and the
    day-over-day returns of that value. */
module Valuation {
  import opened Base
  import opened RealSeq

  /** One row of the historical price table: the trading day and the closing
      price of each ticker quoted on that day. */
  datatype PriceRow = PriceRow(date: string, prices: map<Ticker, real>)

  /** `if (day[ticker]) val += day[ticker] * weight`: a missing quote, and a
      quote of 0 (falsy in JavaScript), contribute nothing. */
  function HeldValue(row: PriceRow, e: Entry): real {
    if e.key in row.prices && row.prices[e.key] != 0.0 then row.prices[e.key] * e.val else 0.0
  }

  /** The value of one unit of the portfolio on the day of `row`: the
      `forEach` over `Object.entries(weights)`, accumulated left to right. */
  function RowValue(row: PriceRow, weights: seq<Entry>): real
    decreases |weights|
  {
    if |weights| == 0 then 0.0
    else RowValue(row, weights[..|weights| - 1]) + HeldValue(row, weights[|weights| - 1])
  }

  /** The quote of `t` on that day, 0 when the row has none. */
  function PriceOrZero(row: PriceRow, t: Ticker): real {
    if t in row.prices then row.prices[t] else 0.0
  }

  /** The quotes of the given tickers, in order. */
  function Quotes(row: PriceRow, ts: seq<Ticker>): seq<real> {
    seq(|ts|, i requires 0 <= i < |ts| => PriceOrZero(row, ts[i]))
  }

  /** The truthiness test changes nothing: the value is the plain weighted
      sum of the quotes, a missing quote counting as 0. */
  lemma {:induction false} RowValueIsWeightedSum(row: PriceRow, weights: seq<Entry>)
    ensures RowValue(row, weights) == Dot(Quotes(row, Keys(weights)), Values(weights))
    decreases |weights|
  {
    if |weights| > 0 {
      var n := |weights|;
      var init := weights[..n - 1];
      RowValueIsWeightedSum(row, init);
      assert Quotes(row, Keys(weights))[..n - 1] == Quotes(row, Keys(init));
      assert Values(weights)[..n - 1] == Values(init);
    }
  }

  /** When every held ticker is quoted at the same price `p`, the portfolio
      is worth `p` times the total weight; with normalised weights, exactly
      `p`. */
  lemma {:induction false} UniformPriceValue(row: PriceRow, weights: seq<Entry>, p: real)
    requires forall i :: 0 <= i < |weights| ==> weights[i].key in row.prices && row.prices[weights[i].key] == p
    ensures RowValue(row, weights) == p * Sum(Values(weights))
    decreases |weights|
  {
    if |weights| > 0 {
      var n := |weights|;
      var init := weights[..n - 1];
      UniformPriceValue(row, init, p);
      assert Values(weights)[..n - 1] == Values(init);
      assert HeldValue(row, weights[n - 1]) == p * weights[n - 1].val;
    }
  }

  /** `historicalData.map(day => value of the portfolio on that day)` */
  function DailyValues(rows: seq<PriceRow>, weights: seq<Entry>): (vs: seq<real>)
    ensures |vs| == |rows|
  {
    seq(|rows|, k requires 0 <= k < |rows| => RowValue(rows[k], weights))
  }

  /** No day but possibly the last values the portfolio at 0: each day-over-day
      return divides by a non-zero value. */
  predicate NonZeroBeforeLast(vs: seq<real>) {
    forall i :: 0 <= i < |vs| - 1 ==> vs[i] != 0.0
  }

  /** `(b - a) / a`, the return from a day valued `a` to a day valued `b`. */
  function DayReturn(a: real, b: real): real
    requires a != 0.0
  {
    (b - a) / a
  }

  /** Compounding `a` by the return gives `b`, and from a positive `a` the
      return is positive exactly when the value went up. */
  lemma DayReturnCompounds(a: real, b: real)
    requires a != 0.0
    ensures a * (1.0 + DayReturn(a, b)) == b
    ensures a > 0.0 ==> (DayReturn(a, b) > 0.0 <==> b > a)
  {
    assert a * ((b - a) / a) == b - a;
  }

  /** The return of every day after the first, each relative to the day
      before (what each return means is `DailyReturnsCompound`). */
  function DailyReturns(vs: seq<real>): (r: seq<real>)
    requires NonZeroBeforeLast(vs)
    ensures |r| == if |vs| == 0 then 0 else |vs| - 1
  {
    if |vs| == 0 then []
    else seq(|vs| - 1, i requires 0 <= i < |vs| - 1 => DayReturn(vs[i], vs[i + 1]))
  }

  /** Compounding a day's value by the next return gives the next day's
      value, and from a positive value that return is positive exactly on an
      up day. */
  lemma DailyReturnsCompound(vs: seq<real>)
    requires NonZeroBeforeLast(vs)
    ensures forall i {:trigger DailyReturns(vs)[i]} :: 0 <= i < |DailyReturns(vs)| ==>
              vs[i] * (1.0 + DailyReturns(vs)[i]) == vs[i + 1]
    ensures forall i {:trigger DailyReturns(vs)[i]} :: 0 <= i < |DailyReturns(vs)| && vs[i] > 0.0 ==>
              (DailyReturns(vs)[i] > 0.0 <==> vs[i + 1] > vs[i])
  {
    forall i | 0 <= i < |DailyReturns(vs)| {
      DailyReturnCompounds(vs, i);
    }
  }

  /** `DailyReturnsCompound` for return `i`. */
  lemma DailyReturnCompounds(vs: seq<real>, i: nat)
    requires NonZeroBeforeLast(vs) && i < |vs| - 1
    ensures vs[i] * (1.0 + DailyReturns(vs)[i]) == vs[i + 1]
    ensures vs[i] > 0.0 ==> (DailyReturns(vs)[i] > 0.0 <==> vs[i + 1] > vs[i])
  {
    var q := DailyReturns(vs)[i];
    assert q == DayReturn(vs[i], vs[i + 1]);
    DayReturnCompounds(vs[i], vs[i + 1]);
  }

  /** The returns of days `1 .. i` extend those of days `1 .. i-1` by day
      `i`'s return. */
  lemma ReturnsStep(vs: seq<real>, i: nat)
    requires NonZeroBeforeLast(vs) && 0 < i < |vs|
    ensures DailyReturns(vs)[..i] == DailyReturns(vs)[..i - 1] + [(vs[i] - vs[i - 1]) / vs[i - 1]]
  {
    var r := DailyReturns(vs);
    assert r[i - 1] == DayReturn(vs[i - 1], vs[i]);
    assert r[..i] == r[..i - 1] + [r[i - 1]];
  }
}
