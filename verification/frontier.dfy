/** Approximate efficient frontier (`extractEfficientFrontier` in
    frontend/src/lib/finance.ts): the observed volatility range is cut into
    equal half-open buckets, the highest-return point of every non-empty
    bucket is kept, and the kept points are sorted by volatility. */
module Frontier {
  import opened Base
  import opened RealSeq
  import opened Ordering
  import opened Portfolio
  import opened PortfolioStatistics

  function ReturnOf(p: PortfolioPoint): real { p.ret }

  function VolatilityOf(p: PortfolioPoint): real { p.volatility }

  /** `p.volatility >= minVol && p.volatility < maxVol`: buckets are closed
      below and open above. */
  predicate InBucket(p: PortfolioPoint, lo: real, hi: real) {
    lo <= p.volatility < hi
  }

  /** `portfolios.filter(p => p.volatility >= minVol && p.volatility < maxVol)` */
  function BucketMembers(ps: seq<PortfolioPoint>, lo: real, hi: real): (m: seq<PortfolioPoint>)
    ensures forall k :: 0 <= k < |m| ==> InBucket(m[k], lo, hi)
    ensures |m| == 0 <==> forall j :: 0 <= j < |ps| ==> !InBucket(ps[j], lo, hi)
    decreases |ps|
  {
    if |ps| == 0 then []
    else
      var m' := BucketMembers(ps[1..], lo, hi);
      assert forall j :: 1 <= j < |ps| ==> ps[j] == ps[1..][j - 1];
      (if InBucket(ps[0], lo, hi) then [ps[0]] else []) + m'
  }

  /** The point one bucket contributes: `inBucket.reduce((prev, current) =>
      current.return > prev.return ? current : prev)` when the bucket is not
      empty. */
  function BucketBest(ps: seq<PortfolioPoint>, lo: real, hi: real): (r: Option<PortfolioPoint>)
    ensures r.Some? ==> InBucket(r.value, lo, hi)
  {
    var m := BucketMembers(ps, lo, hi);
    if |m| > 0 then Some(m[FirstArgMax(m, ReturnOf)]) else None
  }

  /** `ps[k]` lies in the bucket [lo, hi), no point of the bucket has a higher
      return, and every earlier point of the bucket has a lower one. */
  ghost predicate IsBucketWinner(ps: seq<PortfolioPoint>, lo: real, hi: real, k: int) {
    && 0 <= k < |ps|
    && InBucket(ps[k], lo, hi)
    && (forall j :: 0 <= j < |ps| && InBucket(ps[j], lo, hi) ==> ps[j].ret <= ps[k].ret)
    && (forall j :: 0 <= j < k && InBucket(ps[j], lo, hi) ==> ps[j].ret < ps[k].ret)
  }

  lemma BucketWinnerUnique(ps: seq<PortfolioPoint>, lo: real, hi: real, k: int, k': int)
    requires IsBucketWinner(ps, lo, hi, k) && IsBucketWinner(ps, lo, hi, k')
    ensures k == k'
  {
    assert ps[k].ret == ps[k'].ret;
  }

  /** A winner of the tail stays the winner when the head is outside the
      bucket or has a lower return. */
  lemma WinnerOfTail(ps: seq<PortfolioPoint>, lo: real, hi: real, k: int)
    requires |ps| > 0 && IsBucketWinner(ps[1..], lo, hi, k)
    requires InBucket(ps[0], lo, hi) ==> ps[0].ret < ps[1..][k].ret
    ensures IsBucketWinner(ps, lo, hi, k + 1)
  {
    assert forall j :: 1 <= j < |ps| ==> ps[j] == ps[1..][j - 1];
  }

  /** The head is the winner when it is in the bucket and no later member
      has a higher return. */
  lemma WinnerAtHead(ps: seq<PortfolioPoint>, lo: real, hi: real)
    requires |ps| > 0 && InBucket(ps[0], lo, hi)
    requires forall j :: 0 <= j < |ps[1..]| && InBucket(ps[1..][j], lo, hi) ==> ps[1..][j].ret <= ps[0].ret
    ensures IsBucketWinner(ps, lo, hi, 0)
  {
    assert forall j :: 1 <= j < |ps| ==> ps[j] == ps[1..][j - 1];
  }

  /** Filtering and then reducing keeps exactly the bucket winner: nothing
      when the bucket is empty, otherwise the earliest point of the bucket
      with the highest return. */
  lemma {:induction false} BucketBestIsWinner(ps: seq<PortfolioPoint>, lo: real, hi: real)
    ensures BucketBest(ps, lo, hi).None? <==> forall j :: 0 <= j < |ps| ==> !InBucket(ps[j], lo, hi)
    ensures BucketBest(ps, lo, hi).Some? ==>
              exists k :: IsBucketWinner(ps, lo, hi, k) && BucketBest(ps, lo, hi).value == ps[k]
    decreases |ps|
  {
    if |ps| > 0 {
      var x := ps[0];
      var rest := ps[1..];
      BucketBestIsWinner(rest, lo, hi);
      var m' := BucketMembers(rest, lo, hi);
      if !InBucket(x, lo, hi) {
        assert BucketMembers(ps, lo, hi) == m';
        assert BucketBest(ps, lo, hi) == BucketBest(rest, lo, hi);
        if BucketBest(rest, lo, hi).Some? {
          var k' :| IsBucketWinner(rest, lo, hi, k') && BucketBest(rest, lo, hi).value == rest[k'];
          WinnerOfTail(ps, lo, hi, k');
        }
      } else if |m'| == 0 {
        assert BucketMembers(ps, lo, hi) == [x];
        WinnerAtHead(ps, lo, hi);
      } else {
        assert BucketMembers(ps, lo, hi) == [x] + m';
        var k' :| IsBucketWinner(rest, lo, hi, k') && BucketBest(rest, lo, hi).value == rest[k'];
        FirstArgMaxCons(x, m', ReturnOf);
        if rest[k'].ret > x.ret {
          assert BucketBest(ps, lo, hi).value == rest[k'];
          WinnerOfTail(ps, lo, hi, k');
        } else {
          assert BucketBest(ps, lo, hi).value == x;
          WinnerAtHead(ps, lo, hi);
        }
      }
    }
  }

  /** The lower end of bucket `i`, one bucket width above the lower end of
      bucket `i - 1`; BucketLowIsScaled relates it to the source's
      `stats.minVolatility + (i * bucketSize)`. Stating it by steps keeps
      the product of two unknowns out of the proofs about buckets. */
  function BucketLow(minVol: real, width: real, i: nat): real {
    if i == 0 then minVol else BucketLow(minVol, width, i - 1) + width
  }

  lemma {:induction false} BucketLowIsScaled(minVol: real, width: real, i: nat)
    ensures BucketLow(minVol, width, i) == minVol + (i as real) * width
  {
    if i > 0 {
      BucketLowIsScaled(minVol, width, i - 1);
      assert (i as real) * width == ((i - 1) as real) * width + width;
    }
  }

  /** `ps[k]` is the winner of bucket `i`, [BucketLow(i), BucketLow(i + 1)):
      the upper end `minVol + bucketSize` is the next bucket's lower end. */
  ghost predicate IsWinnerOfBucket(ps: seq<PortfolioPoint>, minVol: real, width: real, i: nat, k: int) {
    IsBucketWinner(ps, BucketLow(minVol, width, i), BucketLow(minVol, width, i + 1), k)
  }

  lemma {:induction false} BucketLowAboveMin(minVol: real, width: real, i: nat)
    requires 0.0 <= width
    ensures minVol <= BucketLow(minVol, width, i)
  {
    if i > 0 {
      BucketLowAboveMin(minVol, width, i - 1);
    }
  }

  /** The loop over buckets `0 .. n-1`, pushing each non-empty bucket's best
      point: at most one point per bucket, and nothing at all when the
      buckets have no width. */
  function CollectBuckets(ps: seq<PortfolioPoint>, minVol: real, width: real, n: nat): (f: seq<PortfolioPoint>)
    ensures |f| <= n
    ensures width == 0.0 ==> f == []
    decreases n
  {
    if n == 0 then []
    else CollectBuckets(ps, minVol, width, n - 1) + Kept(BucketOf(ps, minVol, width, n - 1))
  }

  /** The bucket loop's points lie in [minVol, BucketLow(n)) and come in
      strictly ascending volatility, because the buckets do. */
  lemma {:induction false} CollectBucketsOrdered(ps: seq<PortfolioPoint>, minVol: real, width: real, n: nat)
    requires 0.0 <= width
    ensures forall k :: 0 <= k < |CollectBuckets(ps, minVol, width, n)| ==>
              minVol <= CollectBuckets(ps, minVol, width, n)[k].volatility < BucketLow(minVol, width, n)
    ensures StrictlyAscendingBy(CollectBuckets(ps, minVol, width, n), VolatilityOf)
    decreases n
  {
    if n > 0 {
      var m := n - 1;
      CollectBucketsOrdered(ps, minVol, width, m);
      CollectStep(ps, minVol, width, m);
      BucketLowAboveMin(minVol, width, m);
      var f' := CollectBuckets(ps, minVol, width, m);
      var f := CollectBuckets(ps, minVol, width, m + 1);
      assert BucketLow(minVol, width, m + 1) == BucketLow(minVol, width, m) + width;
      if BucketOf(ps, minVol, width, m).Some? {
        var p := BucketOf(ps, minVol, width, m).value;
        assert f == f' + [p];
        assert BucketLow(minVol, width, m) <= p.volatility < BucketLow(minVol, width, m + 1);
        forall k | 0 <= k < |f|
          ensures minVol <= f[k].volatility < BucketLow(minVol, width, m + 1)
        {
          if k < |f'| {
            assert f[k] == f'[k];
          }
        }
        forall a, b | 0 <= a < b < |f|
          ensures VolatilityOf(f[a]) < VolatilityOf(f[b])
        {
          assert f[a] == f'[a];
          if b < |f'| {
            assert f[b] == f'[b];
          }
        }
      } else {
        assert f == f';
      }
    }
  }

  /** The point a bucket pushes onto the frontier, if any. */
  function Kept(r: Option<PortfolioPoint>): seq<PortfolioPoint> {
    match r
    case None => []
    case Some(p) => [p]
  }

  /** `q` is the winner of one of the buckets `0 .. n-1`. */
  ghost predicate IsWinnerBelow(ps: seq<PortfolioPoint>, minVol: real, width: real, n: nat, q: PortfolioPoint) {
    exists i: nat, j :: i < n && IsWinnerOfBucket(ps, minVol, width, i, j) && q == ps[j]
  }

  lemma WinnerBelowGrows(ps: seq<PortfolioPoint>, minVol: real, width: real, n: nat, q: PortfolioPoint)
    requires IsWinnerBelow(ps, minVol, width, n, q)
    ensures IsWinnerBelow(ps, minVol, width, n + 1, q)
  {
    var i: nat, j :| i < n && IsWinnerOfBucket(ps, minVol, width, i, j) && q == ps[j];
  }

  /** One more round of the bucket loop: it appends what bucket `m` keeps. */
  lemma CollectStep(ps: seq<PortfolioPoint>, minVol: real, width: real, m: nat)
    ensures CollectBuckets(ps, minVol, width, m + 1)
         == CollectBuckets(ps, minVol, width, m) + Kept(BucketOf(ps, minVol, width, m))
  {
  }

  /** What bucket `i` keeps. */
  function BucketOf(ps: seq<PortfolioPoint>, minVol: real, width: real, i: nat): Option<PortfolioPoint> {
    BucketBest(ps, BucketLow(minVol, width, i), BucketLow(minVol, width, i + 1))
  }

  /** Bucket `i` keeps its winner, and keeps nothing when it has none. */
  lemma BucketOfIsWinner(ps: seq<PortfolioPoint>, minVol: real, width: real, i: nat)
    ensures BucketOf(ps, minVol, width, i).Some? ==>
              exists k :: IsWinnerOfBucket(ps, minVol, width, i, k) && BucketOf(ps, minVol, width, i).value == ps[k]
    ensures BucketOf(ps, minVol, width, i).None? ==> forall k :: !IsWinnerOfBucket(ps, minVol, width, i, k)
  {
    BucketBestIsWinner(ps, BucketLow(minVol, width, i), BucketLow(minVol, width, i + 1));
  }

  /** Every point the bucket loop keeps is a bucket winner. */
  lemma {:induction false} CollectedAreWinners(ps: seq<PortfolioPoint>, minVol: real, width: real, n: nat)
    requires 0.0 <= width
    ensures forall k :: 0 <= k < |CollectBuckets(ps, minVol, width, n)| ==>
              IsWinnerBelow(ps, minVol, width, n, CollectBuckets(ps, minVol, width, n)[k])
    decreases n
  {
    if n > 0 {
      var m := n - 1;
      CollectedAreWinners(ps, minVol, width, m);
      CollectStep(ps, minVol, width, m);
      var f' := CollectBuckets(ps, minVol, width, m);
      var f := CollectBuckets(ps, minVol, width, m + 1);
      forall k | 0 <= k < |f'|
        ensures IsWinnerBelow(ps, minVol, width, m + 1, f[k])
      {
        assert f[k] == f'[k];
        WinnerBelowGrows(ps, minVol, width, m, f'[k]);
      }
      if BucketOf(ps, minVol, width, m).Some? {
        KeptIsWinner(ps, minVol, width, m);
        assert f[|f'|] == BucketOf(ps, minVol, width, m).value;
      }
    }
  }

  /** What bucket `m` keeps is a winner of the buckets `0 .. m`. */
  lemma KeptIsWinner(ps: seq<PortfolioPoint>, minVol: real, width: real, m: nat)
    requires BucketOf(ps, minVol, width, m).Some?
    ensures IsWinnerBelow(ps, minVol, width, m + 1, BucketOf(ps, minVol, width, m).value)
  {
    BucketOfIsWinner(ps, minVol, width, m);
    var kp :| IsWinnerOfBucket(ps, minVol, width, m, kp) && BucketOf(ps, minVol, width, m).value == ps[kp];
  }

  /** A winner of bucket `m` is what bucket `m` keeps. */
  lemma WinnerIsKept(ps: seq<PortfolioPoint>, minVol: real, width: real, m: nat, j: int)
    requires IsWinnerOfBucket(ps, minVol, width, m, j)
    ensures BucketOf(ps, minVol, width, m) == Some(ps[j])
  {
    BucketOfIsWinner(ps, minVol, width, m);
    var kp :| IsWinnerOfBucket(ps, minVol, width, m, kp) && BucketOf(ps, minVol, width, m).value == ps[kp];
    BucketWinnerUnique(ps, BucketLow(minVol, width, m), BucketLow(minVol, width, m + 1), j, kp);
  }

  /** A point the bucket loop has kept stays kept. */
  lemma CollectedStaysCollected(ps: seq<PortfolioPoint>, minVol: real, width: real, m: nat, q: PortfolioPoint)
    requires q in CollectBuckets(ps, minVol, width, m)
    ensures q in CollectBuckets(ps, minVol, width, m + 1)
  {
    CollectStep(ps, minVol, width, m);
  }

  /** What bucket `m` keeps is in the loop's output once bucket `m` is done. */
  lemma {:induction false} KeptIsCollected(ps: seq<PortfolioPoint>, minVol: real, width: real, m: nat, q: PortfolioPoint)
    requires BucketOf(ps, minVol, width, m) == Some(q)
    ensures q in CollectBuckets(ps, minVol, width, m + 1)
  {
    CollectStep(ps, minVol, width, m);
    assert CollectBuckets(ps, minVol, width, m + 1)[|CollectBuckets(ps, minVol, width, m)|] == q;
  }

  /** What any of the buckets `0 .. n-1` keeps is in the loop's output. */
  lemma {:induction false} KeptStaysCollected(ps: seq<PortfolioPoint>, minVol: real, width: real, n: nat, i: nat,
                                              q: PortfolioPoint)
    requires i < n && BucketOf(ps, minVol, width, i) == Some(q)
    ensures q in CollectBuckets(ps, minVol, width, n)
    decreases n
  {
    var m := n - 1;
    if i < m {
      KeptStaysCollected(ps, minVol, width, m, i, q);
      CollectedStaysCollected(ps, minVol, width, m, q);
    } else {
      KeptIsCollected(ps, minVol, width, m, q);
    }
  }

  /** The winner of any of the buckets `0 .. n-1` is kept by the bucket loop. */
  lemma {:induction false} WinnerIsCollected(ps: seq<PortfolioPoint>, minVol: real, width: real, n: nat, i: nat, j: int)
    requires i < n && IsWinnerOfBucket(ps, minVol, width, i, j)
    ensures 0 <= j < |ps| && ps[j] in CollectBuckets(ps, minVol, width, n)
  {
    WinnerIsKept(ps, minVol, width, i, j);
    KeptStaysCollected(ps, minVol, width, n, i, ps[j]);
  }

  /** `extractEfficientFrontier(portfolios, buckets)`. With no population, or
      no buckets, nothing is kept. */
  function ExtractEfficientFrontier(ps: seq<PortfolioPoint>, buckets: nat): (f: seq<PortfolioPoint>)
    ensures |ps| == 0 ==> f == []
    ensures |f| <= buckets
    ensures StrictlyAscendingBy(f, VolatilityOf)
  {
    if |ps| == 0 || buckets == 0 then []
    else
      var frontier := CollectBuckets(ps, CalculatePortfolioStats(ps).minVolatility, BucketWidth(ps, buckets), buckets);
      WidthNonNegative(ps, buckets);
      CollectBucketsOrdered(ps, CalculatePortfolioStats(ps).minVolatility, BucketWidth(ps, buckets), buckets);
      SortSortedIsIdentity(frontier, VolatilityOf);
      SortBy(frontier, VolatilityOf)
  }

  /** The bucket width `bucketSize = (maxVolatility - minVolatility) / buckets`. */
  function BucketWidth(ps: seq<PortfolioPoint>, buckets: nat): real
    requires buckets > 0
  {
    var stats := CalculatePortfolioStats(ps);
    (stats.maxVolatility - stats.minVolatility) / (buckets as real)
  }

  lemma WidthNonNegative(ps: seq<PortfolioPoint>, buckets: nat)
    requires buckets > 0
    ensures 0.0 <= BucketWidth(ps, buckets)
  {
    var stats := CalculatePortfolioStats(ps);
    assert stats.minVolatility <= stats.maxVolatility;
    ScaleDivided(buckets as real, stats.maxVolatility - stats.minVolatility);
  }

  /** `buckets` buckets of width `(hi - lo) / buckets` starting at `lo` end
      exactly at `hi`. */
  lemma LastBucketEnd(lo: real, hi: real, buckets: nat)
    requires buckets > 0
    ensures BucketLow(lo, (hi - lo) / (buckets as real), buckets) == hi
  {
    var w := (hi - lo) / (buckets as real);
    ScaleDivided(buckets as real, hi - lo);
    BucketLowIsScaled(lo, w, buckets);
  }

  /** The final sort finds the buckets' points already in order, so the
      frontier is the bucket loop's output. */
  lemma {:induction false} FrontierIsBucketOrder(ps: seq<PortfolioPoint>, buckets: nat)
    requires |ps| > 0 && buckets > 0
    ensures 0.0 <= BucketWidth(ps, buckets)
    ensures ExtractEfficientFrontier(ps, buckets)
         == CollectBuckets(ps, CalculatePortfolioStats(ps).minVolatility, BucketWidth(ps, buckets), buckets)
  {
    var frontier := CollectBuckets(ps, CalculatePortfolioStats(ps).minVolatility, BucketWidth(ps, buckets), buckets);
    WidthNonNegative(ps, buckets);
    CollectBucketsOrdered(ps, CalculatePortfolioStats(ps).minVolatility, BucketWidth(ps, buckets), buckets);
    SortSortedIsIdentity(frontier, VolatilityOf);
  }

  /** Every kept point is the winner of one of the buckets. */
  lemma FrontierPointsAreWinners(ps: seq<PortfolioPoint>, buckets: nat)
    requires |ps| > 0 && buckets > 0
    ensures forall k :: 0 <= k < |ExtractEfficientFrontier(ps, buckets)| ==>
              IsWinnerBelow(ps, CalculatePortfolioStats(ps).minVolatility, BucketWidth(ps, buckets), buckets,
                            ExtractEfficientFrontier(ps, buckets)[k])
  {
    FrontierIsBucketOrder(ps, buckets);
    CollectedAreWinners(ps, CalculatePortfolioStats(ps).minVolatility, BucketWidth(ps, buckets), buckets);
  }

  /** Every non-empty bucket's winner is kept. */
  lemma FrontierKeepsEveryWinner(ps: seq<PortfolioPoint>, buckets: nat, i: nat, j: int)
    requires |ps| > 0 && i < buckets
    requires IsWinnerOfBucket(ps, CalculatePortfolioStats(ps).minVolatility, BucketWidth(ps, buckets), i, j)
    ensures 0 <= j < |ps| && ps[j] in ExtractEfficientFrontier(ps, buckets)
  {
    FrontierIsBucketOrder(ps, buckets);
    WinnerIsCollected(ps, CalculatePortfolioStats(ps).minVolatility, BucketWidth(ps, buckets), buckets, i, j);
  }

  /** When every point has the same volatility the bucket width is 0, no
      bucket [lo, lo) holds anything, and the frontier is empty: the source
      does not fall back to a single bucket. */
  lemma FrontierEmptyWhenVolatilitiesEqual(ps: seq<PortfolioPoint>, buckets: nat)
    requires forall i :: 0 <= i < |ps| ==> ps[i].volatility == ps[0].volatility
    ensures ExtractEfficientFrontier(ps, buckets) == []
  {
    if |ps| > 0 && buckets > 0 {
      var stats := CalculatePortfolioStats(ps);
      ExtremesAreAttained(ps);
      var a :| 0 <= a < |ps| && ps[a].volatility == stats.maxVolatility;
      var b :| 0 <= b < |ps| && ps[b].volatility == stats.minVolatility;
      assert ps[a].volatility == ps[b].volatility;
      NoRangeNoWidth(ps, buckets);
      FrontierIsBucketOrder(ps, buckets);
    }
  }

  lemma NoRangeNoWidth(ps: seq<PortfolioPoint>, buckets: nat)
    requires buckets > 0
    requires CalculatePortfolioStats(ps).maxVolatility == CalculatePortfolioStats(ps).minVolatility
    ensures BucketWidth(ps, buckets) == 0.0
  {
  }

  /** The last bucket ends exactly at the greatest volatility and excludes
      it, so a point with the greatest volatility is never kept. */
  lemma FrontierBelowMaxVolatility(ps: seq<PortfolioPoint>, buckets: nat)
    ensures forall k :: 0 <= k < |ExtractEfficientFrontier(ps, buckets)| ==>
              ExtractEfficientFrontier(ps, buckets)[k].volatility < CalculatePortfolioStats(ps).maxVolatility
  {
    if |ps| > 0 && buckets > 0 {
      var lo := CalculatePortfolioStats(ps).minVolatility;
      var w := BucketWidth(ps, buckets);
      FrontierIsBucketOrder(ps, buckets);
      LastBucketEndsAtMaxVolatility(ps, buckets);
      CollectBucketsOrdered(ps, lo, w, buckets);
    }
  }

  /** The end of the last bucket is the greatest volatility. */
  lemma {:induction false} LastBucketEndsAtMaxVolatility(ps: seq<PortfolioPoint>, buckets: nat)
    requires buckets > 0
    ensures BucketLow(CalculatePortfolioStats(ps).minVolatility, BucketWidth(ps, buckets), buckets)
         == CalculatePortfolioStats(ps).maxVolatility
  {
    var stats := CalculatePortfolioStats(ps);
    LastBucketEnd(stats.minVolatility, stats.maxVolatility, buckets);
  }
}
