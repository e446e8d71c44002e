/** Risk metrics of the selected portfolio over the price history (the
    `riskMetrics` memo of frontend/src/components/RiskAnalysis.tsx): the
    drawdown of every day from the running peak, the deepest drawdown, and
    the historical 95% Value at Risk of the daily returns. */
module Risk {
  import opened Base
  import opened RealSeq
  import opened Ordering
  import opened Portfolio
  import opened Valuation

  /** A point of the drawdown chart: the day (`dd/mm`) and the drawdown in
      percent. */
  datatype DrawdownPoint = DrawdownPoint(date: string, value: real)

  /** `{ maxDrawdown, var95, drawdownChart }`; `var95` is absent (`undefined`
      in the source) when there is no daily return. */
  datatype RiskMetrics = RiskMetrics(maxDrawdown: real, var95: Option<real>, drawdownChart: seq<DrawdownPoint>)

  /** Every day values the portfolio above 0. */
  predicate AllPositive(vs: seq<real>) {
    forall i :: 0 <= i < |vs| ==> vs[i] > 0.0
  }

  /** The running peak: the highest value of days `0 .. i`. */
  function Peak(vs: seq<real>, i: nat): (p: real)
    requires i < |vs|
    ensures forall j :: 0 <= j <= i ==> vs[j] <= p
  {
    assert forall j :: 0 <= j <= i ==> vs[..i + 1][j] == vs[j];
    Max(vs[..i + 1])
  }

  /** `if (dailyValues[i] > peak) peak = dailyValues[i]` */
  lemma PeakStep(vs: seq<real>, i: nat)
    requires 0 < i < |vs|
    ensures Peak(vs, i) == if vs[i] > Peak(vs, i - 1) then vs[i] else Peak(vs, i - 1)
  {
    assert vs[..i + 1] == vs[..i] + [vs[i]];
    MaxSnoc(vs[..i], vs[i]);
  }

  /** The running peak is the value of one of the days. */
  lemma PeakIsAttained(vs: seq<real>, i: nat)
    requires i < |vs|
    ensures exists j :: 0 <= j <= i && vs[j] == Peak(vs, i)
  {
    MaxIsElement(vs[..i + 1]);
    var j :| 0 <= j < i + 1 && vs[..i + 1][j] == Max(vs[..i + 1]);
    assert vs[j] == Peak(vs, i);
  }

  /** `(value - peak) / peak` */
  function Drawdown(v: real, peak: real): real
    requires peak != 0.0
  {
    (v - peak) / peak
  }

  lemma DrawdownRange(v: real, p: real)
    requires 0.0 < v <= p
    ensures -1.0 < Drawdown(v, p) <= 0.0
    ensures Drawdown(v, p) == 0.0 <==> v == p
  {
    var q := Drawdown(v, p);
    assert p * q == v - p;
    assert p * (q + 1.0) == v;
    SignOfProduct(p, q + 1.0);
    SignOfProduct(p, q);
  }

  lemma SignOfProduct(p: real, x: real)
    requires 0.0 < p
    ensures p * x > 0.0 <==> x > 0.0
    ensures p * x == 0.0 <==> x == 0.0
  {
    if x > 0.0 {
      assert p * x > 0.0;
    } else if x < 0.0 {
      assert p * x < 0.0;
    }
  }

  /** The drawdown of every day after the first from the running peak (each
      lies in (-100%, 0%], by `DrawdownsInRange`). */
  function Drawdowns(vs: seq<real>): (d: seq<real>)
    requires AllPositive(vs)
    ensures |d| == if |vs| == 0 then 0 else |vs| - 1
  {
    if |vs| == 0 then []
    else seq(|vs| - 1, k requires 0 <= k < |vs| - 1 => Drawdown(vs[k + 1], Peak(vs, k + 1)))
  }

  /** Every drawdown lies in (-100%, 0%]. */
  lemma DrawdownsInRange(vs: seq<real>)
    requires AllPositive(vs)
    ensures forall k :: 0 <= k < |Drawdowns(vs)| ==> -1.0 < Drawdowns(vs)[k] <= 0.0
  {
    var d := Drawdowns(vs);
    forall k | 0 <= k < |d|
      ensures -1.0 < d[k] <= 0.0
    {
      DrawdownRange(vs[k + 1], Peak(vs, k + 1));
    }
  }

  /** A day's drawdown is 0 exactly when the day is at least as high as
      every day before it. */
  lemma DrawdownZeroOnNewHigh(vs: seq<real>, k: nat)
    requires AllPositive(vs) && k < |Drawdowns(vs)|
    ensures Drawdowns(vs)[k] == 0.0 <==> forall j :: 0 <= j <= k + 1 ==> vs[j] <= vs[k + 1]
  {
    var v, p := vs[k + 1], Peak(vs, k + 1);
    assert Drawdowns(vs)[k] == Drawdown(v, p);
    DrawdownRange(v, p);
    PeakIsAttained(vs, k + 1);
    var a :| 0 <= a <= k + 1 && vs[a] == p;
    if forall j :: 0 <= j <= k + 1 ==> vs[j] <= v {
      assert vs[a] <= v;
    }
  }

  /** The deepest drawdown, `maxDrawdown`: a running minimum over the
      drawdowns that starts at 0. It lies in (-100%, 0%], no day's drawdown
      is deeper, and unless it is 0 it is some day's drawdown. */
  function MaxDrawdown(vs: seq<real>): (m: real)
    requires AllPositive(vs)
    ensures -1.0 < m <= 0.0
    ensures forall k :: 0 <= k < |Drawdowns(vs)| ==> m <= Drawdowns(vs)[k]
    ensures m == 0.0 || exists k :: 0 <= k < |Drawdowns(vs)| && Drawdowns(vs)[k] == m
  {
    var d := Drawdowns(vs);
    DrawdownsInRange(vs);
    var m := LowestOrZero(d);
    assert m == 0.0 || exists k :: 0 <= k < |d| && d[k] == m;
    m
  }

  function Identity(x: real): real { x }

  /** `returns.sort((a, b) => a - b)[Math.floor(returns.length * 0.05)]`:
      the `⌊n/20⌋`-th smallest return, stated by rank — at most `⌊n/20⌋`
      returns are worse and more than `⌊n/20⌋` are no better. Absent when
      there is no return. (The double `0.05` slightly exceeds 1/20, so the
      floor of the product is `n / 20` for every length.) */
  function ValueAtRisk95(rets: seq<real>): (v: Option<real>)
    ensures v.None? <==> |rets| == 0
    ensures v.Some? ==>
              CountBelow(rets, Identity, v.value, false) <= |rets| / 20 < CountBelow(rets, Identity, v.value, true)
  {
    if |rets| == 0 then None
    else
      OrderStatistic(rets, Identity, |rets| / 20);
      Some(SortBy(rets, Identity)[|rets| / 20])
  }

  /** The rank conditions fix the 95% Value at Risk: any value with at most
      `⌊n/20⌋` returns below it and more than `⌊n/20⌋` at or below it is the
      Value at Risk, whatever sorting procedure produced it. */
  lemma ValueAtRiskDeterminedByRank(rets: seq<real>, v: real)
    requires |rets| > 0
    requires CountBelow(rets, Identity, v, false) <= |rets| / 20 < CountBelow(rets, Identity, v, true)
    ensures ValueAtRisk95(rets) == Some(v)
  {
    RankDeterminesValue(rets, Identity, |rets| / 20, v, ValueAtRisk95(rets).value);
  }

  /** The 95% Value at Risk is one of the returns, so it lies between the
      worst and the best of them. */
  lemma {:induction false} ValueAtRiskIsAReturn(rets: seq<real>)
    requires |rets| > 0
    ensures exists j :: 0 <= j < |rets| && rets[j] == ValueAtRisk95(rets).value
    ensures Min(rets) <= ValueAtRisk95(rets).value <= Max(rets)
  {
    var s := SortBy(rets, Identity);
    SortByPermutes(rets, Identity);
    var v := s[|rets| / 20];
    assert v == ValueAtRisk95(rets).value;
    assert v in multiset(s);
    assert v in multiset(rets);
    var j :| 0 <= j < |rets| && rets[j] == v;
  }

  /** With fewer than twenty returns the 95% Value at Risk is the worst
      return. */
  lemma {:induction false} SmallSampleValueAtRiskIsWorst(rets: seq<real>)
    requires 0 < |rets| < 20
    ensures ValueAtRisk95(rets) == Some(Min(rets))
  {
    assert |rets| / 20 == 0;
    LowestRankIsMin(rets, ValueAtRisk95(rets).value);
  }

  /** A value with no element strictly below it and some element at or
      below it is the least element. */
  lemma {:induction false} LowestRankIsMin(xs: seq<real>, v: real)
    requires |xs| > 0
    requires CountBelow(xs, Identity, v, false) == 0 < CountBelow(xs, Identity, v, true)
    ensures v == Min(xs)
  {
    CountBelowWitness(xs, Identity, v, false);
    CountBelowWitness(xs, Identity, v, true);
    var j :| 0 <= j < |xs| && Below(Identity(xs[j]), v, true);
    MinIsElement(xs);
    var m :| 0 <= m < |xs| && xs[m] == Min(xs);
    assert !Below(Identity(xs[m]), v, false);
    assert Min(xs) <= xs[j];
  }

  /** Day `i`'s drawdown, from the peak including day `i`. */
  lemma DrawdownOfDay(vs: seq<real>, i: nat)
    requires AllPositive(vs) && 0 < i < |vs|
    ensures Drawdowns(vs)[i - 1] == Drawdown(vs[i], Peak(vs, i))
  {
  }

  /** `if (dd < maxDrawdown) maxDrawdown = dd` keeps the running minimum. */
  lemma DeepestStep(d: seq<real>, i: nat, maxDrawdown: real)
    requires 0 < i <= |d|
    requires maxDrawdown == LowestOrZero(d[..i - 1])
    ensures (if d[i - 1] < maxDrawdown then d[i - 1] else maxDrawdown) == LowestOrZero(d[..i])
  {
    assert d[..i] == d[..i - 1] + [d[i - 1]];
    LowestOrZeroSnoc(d[..i - 1], d[i - 1]);
  }

  /** The state of the loop over days once days `1 .. i-1` are done: the
      running peak, the returns so far, the deepest drawdown so far and the
      chart so far. */
  ghost predicate ScannedUpTo(vs: seq<real>, dates: seq<string>, i: nat, peak: real,
                              rets: seq<real>, maxDrawdown: real, chart: seq<DrawdownPoint>)
    requires AllPositive(vs) && |dates| == |vs|
  {
    && 1 <= i <= |vs|
    && peak == Peak(vs, i - 1)
    && rets == DailyReturns(vs)[..i - 1]
    && maxDrawdown == LowestOrZero(Drawdowns(vs)[..i - 1])
    && |chart| == i - 1
    && forall k :: 0 <= k < i - 1 ==> chart[k] == DrawdownPoint(dates[k + 1], Drawdowns(vs)[k] * 100.0)
  }

  /** Day `i` raises the running peak to its own value when it is higher,
      and its drawdown is taken from that updated peak. */
  lemma PeakAndDrawdownOfDay(vs: seq<real>, i: nat, peak: real, peak': real)
    requires AllPositive(vs) && 0 < i < |vs|
    requires peak == Peak(vs, i - 1)
    requires peak' == if vs[i] > peak then vs[i] else peak
    ensures peak' == Peak(vs, i) && peak' > 0.0
    ensures (vs[i] - peak') / peak' == Drawdowns(vs)[i - 1]
  {
    PeakStep(vs, i);
    DrawdownOfDay(vs, i);
  }

  /** Extending the scanned state by day `i`'s return, peak and drawdown
      gives the state once day `i` is done. */
  lemma ScannedStep(vs: seq<real>, dates: seq<string>, i: nat, peak: real, rets: seq<real>, maxDrawdown: real,
                    chart: seq<DrawdownPoint>, peak': real, ret: real, dd: real)
    requires AllPositive(vs) && |dates| == |vs| && 0 < i < |vs|
    requires ScannedUpTo(vs, dates, i, peak, rets, maxDrawdown, chart)
    requires DailyReturns(vs)[..i] == DailyReturns(vs)[..i - 1] + [ret]
    requires peak' == Peak(vs, i) && dd == Drawdowns(vs)[i - 1]
    ensures ScannedUpTo(vs, dates, i + 1, peak', rets + [ret], if dd < maxDrawdown then dd else maxDrawdown,
                        chart + [DrawdownPoint(dates[i], dd * 100.0)])
  {
    DeepestSoFarStep(vs, dates, i, peak, rets, maxDrawdown, chart, dd);
    ChartSoFarStep(vs, dates, i, peak, rets, maxDrawdown, chart, dd);
    ScannedFrom(vs, dates, i + 1, peak', rets + [ret], if dd < maxDrawdown then dd else maxDrawdown,
                chart + [DrawdownPoint(dates[i], dd * 100.0)]);
  }

  /** The conjuncts of `ScannedUpTo`, one by one. */
  lemma ScannedFrom(vs: seq<real>, dates: seq<string>, i: nat, peak: real,
                    rets: seq<real>, maxDrawdown: real, chart: seq<DrawdownPoint>)
    requires AllPositive(vs) && |dates| == |vs| && 1 <= i <= |vs|
    requires peak == Peak(vs, i - 1) && rets == DailyReturns(vs)[..i - 1]
    requires maxDrawdown == LowestOrZero(Drawdowns(vs)[..i - 1])
    requires |chart| == i - 1
    requires forall k :: 0 <= k < i - 1 ==> chart[k] == DrawdownPoint(dates[k + 1], Drawdowns(vs)[k] * 100.0)
    ensures ScannedUpTo(vs, dates, i, peak, rets, maxDrawdown, chart)
  {
  }

  /** The running minimum of the loop state, extended by day `i`. */
  lemma DeepestSoFarStep(vs: seq<real>, dates: seq<string>, i: nat, peak: real, rets: seq<real>,
                         maxDrawdown: real, chart: seq<DrawdownPoint>, dd: real)
    requires AllPositive(vs) && |dates| == |vs| && 0 < i < |vs|
    requires ScannedUpTo(vs, dates, i, peak, rets, maxDrawdown, chart)
    requires dd == Drawdowns(vs)[i - 1]
    ensures (if dd < maxDrawdown then dd else maxDrawdown) == LowestOrZero(Drawdowns(vs)[..i])
  {
    DeepestStep(Drawdowns(vs), i, maxDrawdown);
  }

  /** The chart of the loop state, extended by day `i`. */
  lemma ChartSoFarStep(vs: seq<real>, dates: seq<string>, i: nat, peak: real, rets: seq<real>,
                       maxDrawdown: real, chart: seq<DrawdownPoint>, dd: real)
    requires AllPositive(vs) && |dates| == |vs| && 0 < i < |vs|
    requires ScannedUpTo(vs, dates, i, peak, rets, maxDrawdown, chart)
    requires dd == Drawdowns(vs)[i - 1]
    ensures forall k :: 0 <= k < i ==>
              (chart + [DrawdownPoint(dates[i], dd * 100.0)])[k] == DrawdownPoint(dates[k + 1], Drawdowns(vs)[k] * 100.0)
  {
    ChartStep(dates, Drawdowns(vs), i, chart, dd);
  }

  /** Appending day `i`'s point to the chart of days `1 .. i-1` gives the
      chart of days `1 .. i`. */
  lemma ChartStep(dates: seq<string>, d: seq<real>, i: nat, chart: seq<DrawdownPoint>, dd: real)
    requires 0 < i < |dates| && i <= |d| && |chart| == i - 1 && dd == d[i - 1]
    requires forall k :: 0 <= k < i - 1 ==> chart[k] == DrawdownPoint(dates[k + 1], d[k] * 100.0)
    ensures forall k :: 0 <= k < i ==> (chart + [DrawdownPoint(dates[i], dd * 100.0)])[k] == DrawdownPoint(dates[k + 1], d[k] * 100.0)
  {
  }

  /** One iteration of the loop over days, for day `i`. */
  method ScanDay(vs: seq<real>, dates: seq<string>, i: nat, peak: real,
                 rets: seq<real>, maxDrawdown: real, chart: seq<DrawdownPoint>)
    returns (peak': real, rets': seq<real>, maxDrawdown': real, chart': seq<DrawdownPoint>)
    requires AllPositive(vs) && |dates| == |vs| && i < |vs|
    requires ScannedUpTo(vs, dates, i, peak, rets, maxDrawdown, chart)
    ensures ScannedUpTo(vs, dates, i + 1, peak', rets', maxDrawdown', chart')
  {
    ReturnsStep(vs, i);
    var ret := (vs[i] - vs[i - 1]) / vs[i - 1];
    rets' := rets + [ret];
    peak' := peak;
    if vs[i] > peak' {
      peak' := vs[i];
    }
    PeakAndDrawdownOfDay(vs, i, peak, peak');
    var dd := (vs[i] - peak') / peak';
    maxDrawdown' := maxDrawdown;
    if dd < maxDrawdown' {
      maxDrawdown' := dd;
    }
    chart' := chart + [DrawdownPoint(dates[i], dd * 100.0)];
    ScannedStep(vs, dates, i, peak, rets, maxDrawdown, chart, peak', ret, dd);
  }

  /** The loop over days `1 .. n-1`: the daily returns, the deepest drawdown
      and one chart point per day. */
  method ScanDays(vs: seq<real>, dates: seq<string>)
    returns (rets: seq<real>, maxDrawdown: real, chart: seq<DrawdownPoint>)
    requires AllPositive(vs) && |dates| == |vs|
    ensures rets == DailyReturns(vs)
    ensures maxDrawdown == MaxDrawdown(vs)
    ensures |chart| == |Drawdowns(vs)|
    ensures forall k :: 0 <= k < |chart| ==> chart[k] == DrawdownPoint(dates[k + 1], Drawdowns(vs)[k] * 100.0)
  {
    rets := [];
    chart := [];
    maxDrawdown := 0.0;
    if |vs| == 0 {
      return;
    }
    var peak := vs[0];
    var i := 1;
    while i < |vs|
      invariant ScannedUpTo(vs, dates, i, peak, rets, maxDrawdown, chart)
      decreases |vs| - i
    {
      peak, rets, maxDrawdown, chart := ScanDay(vs, dates, i, peak, rets, maxDrawdown, chart);
      i := i + 1;
    }
    assert Drawdowns(vs)[..i - 1] == Drawdowns(vs);
    assert DailyReturns(vs)[..i - 1] == DailyReturns(vs);
  }

  /** The `riskMetrics` memo: nothing without history or without a selected
      portfolio; otherwise the deepest drawdown, one chart point per day after
      the first, and the 95% Value at Risk of the daily returns. */
  method AnalyseRisk(history: Option<seq<PriceRow>>, selected: Option<PortfolioPoint>, dayMonth: string -> string)
    returns (r: Option<RiskMetrics>)
    requires history.Some? && selected.Some? ==> AllPositive(DailyValues(history.value, selected.value.weights))
    ensures r.None? <==> history.None? || selected.None?
    ensures r.Some? ==>
              var rows := history.value;
              var vs := DailyValues(rows, selected.value.weights);
              && r.value.maxDrawdown == MaxDrawdown(vs)
              && r.value.var95 == ValueAtRisk95(DailyReturns(vs))
              && (r.value.var95.Some? <==> |rows| >= 2)
              && |r.value.drawdownChart| == |Drawdowns(vs)|
              && forall k :: 0 <= k < |r.value.drawdownChart| ==>
                   r.value.drawdownChart[k] == DrawdownPoint(dayMonth(rows[k + 1].date), Drawdowns(vs)[k] * 100.0)
  {
    if history.None? || selected.None? {
      return None;
    }
    var rows := history.value;
    var vs := DailyValues(rows, selected.value.weights);
    var dates := seq(|rows|, k requires 0 <= k < |rows| => dayMonth(rows[k].date));
    var rets, maxDrawdown, chart := ScanDays(vs, dates);
    var sorted := SortBy(rets, Identity);
    var index95 := |rets| / 20;
    var var95 := if index95 < |sorted| then Some(sorted[index95]) else None;
    r := Some(RiskMetrics(maxDrawdown, var95, chart));
  }

  /** The chart of [1.0, 1.2, 0.9, 1.1]: the peak of 1.2 on the second day
      and the fall to 0.9 on the third give a deepest drawdown of -25%. */
  lemma MaxDrawdownScenario()
    ensures MaxDrawdown([1.0, 1.2, 0.9, 1.1]) == -0.25
  {
    var vs := [1.0, 1.2, 0.9, 1.1];
    PeakStep(vs, 1);
    PeakStep(vs, 2);
    PeakStep(vs, 3);
    var d := Drawdowns(vs);
    assert d[0] == 0.0;
    assert d[1] == -0.25;
    assert d[2] == (1.1 - 1.2) / 1.2;
    assert d == d[..2] + [d[2]];
    assert d[..2] == [d[0]] + [d[1]];
    LowestOrZeroSnoc([], d[0]);
    assert [] + [d[0]] == [d[0]];
    LowestOrZeroSnoc([d[0]], d[1]);
    LowestOrZeroSnoc(d[..2], d[2]);
  }

  /** A history that never falls has no drawdown. */
  lemma NeverFallingHasNoDrawdown(vs: seq<real>)
    requires AllPositive(vs)
    requires forall i, j :: 0 <= i <= j < |vs| ==> vs[i] <= vs[j]
    ensures MaxDrawdown(vs) == 0.0
  {
    var d := Drawdowns(vs);
    forall k | 0 <= k < |d|
      ensures d[k] == 0.0
    {
      DrawdownZeroOnNewHigh(vs, k);
    }
  }
}
