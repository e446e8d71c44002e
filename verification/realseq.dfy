/** Sums, extrema, counts and powers over sequences of reals, the arithmetic
    vocabulary in which every component of the engine is specified. */
module RealSeq {

  /** `xs.reduce((a, b) => a + b, 0)`: a left-to-right sum. */
  function Sum(xs: seq<real>): real
    decreases |xs|
  {
    if |xs| == 0 then 0.0 else Sum(xs[..|xs| - 1]) + xs[|xs| - 1]
  }

  /** Σ xs[i]·ys[i], accumulated left to right. */
  function Dot(xs: seq<real>, ys: seq<real>): real
    requires |xs| == |ys|
    decreases |xs|
  {
    if |xs| == 0 then 0.0
    else Dot(xs[..|xs| - 1], ys[..|ys| - 1]) + xs[|xs| - 1] * ys[|ys| - 1]
  }

  /** `Math.max(...xs)`: an upper bound of the elements (an element itself, by
      `MaxIsElement`). */
  function Max(xs: seq<real>): (m: real)
    requires |xs| > 0
    ensures forall i :: 0 <= i < |xs| ==> xs[i] <= m
    decreases |xs|
  {
    if |xs| == 1 then xs[0]
    else
      var m' := Max(xs[..|xs| - 1]);
      assert forall i :: 0 <= i < |xs| - 1 ==> xs[..|xs| - 1][i] == xs[i];
      if xs[|xs| - 1] > m' then xs[|xs| - 1] else m'
  }

  /** `Math.min(...xs)`: a lower bound of the elements (an element itself, by
      `MinIsElement`). */
  function Min(xs: seq<real>): (m: real)
    requires |xs| > 0
    ensures forall i :: 0 <= i < |xs| ==> m <= xs[i]
    decreases |xs|
  {
    if |xs| == 1 then xs[0]
    else
      var m' := Min(xs[..|xs| - 1]);
      assert forall i :: 0 <= i < |xs| - 1 ==> xs[..|xs| - 1][i] == xs[i];
      if xs[|xs| - 1] < m' then xs[|xs| - 1] else m'
  }

  /** The least element, or 0 when that is smaller or there is no element:
      the result of a running minimum that starts at 0. */
  function LowestOrZero(xs: seq<real>): (m: real)
    ensures m <= 0.0
    ensures forall i :: 0 <= i < |xs| ==> m <= xs[i]
    ensures m == 0.0 || m in xs
  {
    if |xs| == 0 then 0.0
    else
      MinIsElement(xs);
      if Min(xs) < 0.0 then Min(xs) else 0.0
  }

  lemma {:induction false} MaxIsElement(xs: seq<real>)
    requires |xs| > 0
    ensures Max(xs) in xs
    decreases |xs|
  {
    if |xs| > 1 {
      MaxIsElement(xs[..|xs| - 1]);
      assert xs == xs[..|xs| - 1] + [xs[|xs| - 1]];
    }
  }

  lemma {:induction false} MinIsElement(xs: seq<real>)
    requires |xs| > 0
    ensures Min(xs) in xs
    decreases |xs|
  {
    if |xs| > 1 {
      MinIsElement(xs[..|xs| - 1]);
      assert xs == xs[..|xs| - 1] + [xs[|xs| - 1]];
    }
  }

  /** The arithmetic mean `Sum(xs) / xs.length`. */
  function Mean(xs: seq<real>): real
    requires |xs| > 0
  {
    Sum(xs) / (|xs| as real)
  }

  /** The number of strictly positive elements. */
  function CountPositive(xs: seq<real>): (n: nat)
    ensures n <= |xs|
    decreases |xs|
  {
    if |xs| == 0 then 0
    else CountPositive(xs[..|xs| - 1]) + (if xs[|xs| - 1] > 0.0 then 1 else 0)
  }

  /** `f` multiplied by itself `n` times, starting from 1. */
  function Pow(f: real, n: nat): real
    decreases n
  {
    if n == 0 then 1.0 else Pow(f, n - 1) * f
  }

  /** Every element divided by `s`, built up left to right. */
  function Quotients(xs: seq<real>, s: real): (q: seq<real>)
    requires |xs| == 0 || s != 0.0
    ensures |q| == |xs|
    decreases |xs|
  {
    if |xs| == 0 then []
    else Quotients(xs[..|xs| - 1], s) + [xs[|xs| - 1] / s]
  }

  /** Each quotient times `s` gives back its element. */
  lemma {:induction false} QuotientsTimes(xs: seq<real>, s: real)
    requires s != 0.0
    ensures forall i {:trigger Quotients(xs, s)[i]} :: 0 <= i < |xs| ==> Quotients(xs, s)[i] * s == xs[i]
    decreases |xs|
  {
    if |xs| > 0 {
      var n := |xs|;
      var q := Quotients(xs, s);
      QuotientsTimes(xs[..n - 1], s);
      assert q == Quotients(xs[..n - 1], s) + [xs[n - 1] / s];
      forall i | 0 <= i < n
        ensures q[i] * s == xs[i]
      {
        if i < n - 1 {
          assert q[i] == Quotients(xs[..n - 1], s)[i];
          assert xs[..n - 1][i] == xs[i];
        } else {
          assert q[i] == xs[n - 1] / s;
        }
      }
    }
  }

  /** `max(0, x)` */
  function ClampAtZero(x: real): real {
    if x > 0.0 then x else 0.0
  }

  /** `sqrt` behaves as the square root on the non-negative reals: its result
      is non-negative, squares back to the argument and is 0 only at 0. This
      is all the model assumes of `Math.sqrt`. */
  ghost predicate IsSqrt(sqrt: real -> real) {
    forall x: real {:trigger sqrt(x)} :: 0.0 <= x ==>
      && 0.0 <= sqrt(x)
      && sqrt(x) * sqrt(x) == x
      && (sqrt(x) == 0.0 <==> x == 0.0)
  }

  /** A sum of `n` terms lies between `n` times the least and `n` times the
      greatest term. */
  lemma {:induction false} SumBounds(xs: seq<real>)
    requires |xs| > 0
    ensures (|xs| as real) * Min(xs) <= Sum(xs) <= (|xs| as real) * Max(xs)
  {
    SumAtLeast(xs, Min(xs));
    SumAtMost(xs, Max(xs));
  }

  /** A sum of `n` terms, each at least `lo`, is at least `n * lo`. */
  lemma {:induction false} SumAtLeast(xs: seq<real>, lo: real)
    requires forall i :: 0 <= i < |xs| ==> lo <= xs[i]
    ensures (|xs| as real) * lo <= Sum(xs)
    decreases |xs|
  {
    if |xs| > 0 {
      var p := xs[..|xs| - 1];
      assert forall i :: 0 <= i < |p| ==> p[i] == xs[i];
      SumAtLeast(p, lo);
      Distribute(|p| as real, |xs| as real, lo);
    }
  }

  /** A sum of `n` terms, each at most `hi`, is at most `n * hi`. */
  lemma {:induction false} SumAtMost(xs: seq<real>, hi: real)
    requires forall i :: 0 <= i < |xs| ==> xs[i] <= hi
    ensures Sum(xs) <= (|xs| as real) * hi
    decreases |xs|
  {
    if |xs| > 0 {
      var p := xs[..|xs| - 1];
      assert forall i :: 0 <= i < |p| ==> p[i] == xs[i];
      SumAtMost(p, hi);
      Distribute(|p| as real, |xs| as real, hi);
    }
  }

  lemma Distribute(k: real, k1: real, x: real)
    requires k1 == k + 1.0
    ensures k1 * x == k * x + x
  {
  }

  lemma CancelPositive(a: real, b: real, x: real)
    requires 0.0 < x && a * x == b * x
    ensures a == b
  {
  }

  lemma MulLeft(k: real, a: real, b: real)
    requires 0.0 <= k && a <= b
    ensures k * a <= k * b
  {
    assert k * b - k * a == k * (b - a);
  }

  lemma ProductPositive(a: real, b: real)
    requires 0.0 < a && 0.0 < b
    ensures 0.0 < a * b
  {
  }

  /** Squaring is strictly increasing on the non-negative reals. */
  lemma SquareBelow(v: real, r: real)
    requires 0.0 <= v < r
    ensures v * v < r * r
  {
    ProductPositive(r - v, r + v);
    assert (r - v) * (r + v) == r * r - v * v;
  }

  /** A non-negative number whose square is `r * r`, for a positive `r`, is
      `r` itself. */
  lemma SquareRootUnique(v: real, r: real)
    requires 0.0 <= v && 0.0 < r && v * v == r * r
    ensures v == r
  {
    if v < r {
      SquareBelow(v, r);
    } else if v > r {
      SquareBelow(r, v);
    }
  }

  /** Dividing by a positive `n` keeps the sign, and multiplying back by `n`
      undoes it. */
  lemma ScaleDivided(n: real, x: real)
    requires 0.0 < n
    ensures 0.0 <= x ==> 0.0 <= x / n
    ensures n * (x / n) == x
  {
  }

  /** `m` is the arithmetic mean of `xs`: `m` times the number of elements is
      their sum. */
  predicate IsMeanOf(m: real, xs: seq<real>) {
    (|xs| as real) * m == Sum(xs)
  }

  /** `Mean` is the arithmetic mean. */
  lemma MeanTimesCount(xs: seq<real>)
    requires |xs| > 0
    ensures IsMeanOf(Mean(xs), xs)
  {
    ScaleDivided(|xs| as real, Sum(xs));
  }

  /** The mean lies between the least and the greatest element. */
  lemma {:induction false} MeanBetweenMinMax(xs: seq<real>)
    requires |xs| > 0
    ensures Min(xs) <= Mean(xs) <= Max(xs)
  {
    SumBounds(xs);
    DivideBounds(|xs| as real, Min(xs), Sum(xs), Max(xs));
  }

  lemma DivideBounds(n: real, lo: real, s: real, hi: real)
    requires 0.0 < n
    requires n * lo <= s <= n * hi
    ensures lo <= s / n <= hi
  {
    var q := s / n;
    assert n * q == s;
    assert n * (q - lo) >= 0.0;
    assert n * (hi - q) >= 0.0;
  }

  /** Dividing every term by `s` divides the sum by `s`. */
  lemma {:induction false} SumQuotients(xs: seq<real>, s: real)
    requires s != 0.0
    ensures Sum(Quotients(xs, s)) == Sum(xs) / s
    decreases |xs|
  {
    if |xs| > 0 {
      var n := |xs|;
      assert Quotients(xs, s)[..n - 1] == Quotients(xs[..n - 1], s);
      assert Quotients(xs, s)[n - 1] == xs[n - 1] / s;
      SumQuotients(xs[..n - 1], s);
      assert Sum(xs[..n - 1]) / s + xs[n - 1] / s == (Sum(xs[..n - 1]) + xs[n - 1]) / s;
    }
  }

  /** Extending a sequence by `x` raises its maximum to `x` exactly when `x`
      is strictly greater: the running maximum of a loop. */
  lemma {:induction false} MaxSnoc(xs: seq<real>, x: real)
    requires |xs| > 0
    ensures Max(xs + [x]) == if x > Max(xs) then x else Max(xs)
  {
    assert (xs + [x])[..|xs|] == xs;
  }

  /** Extending a sequence by `x` lowers its minimum to `x` exactly when `x`
      is strictly smaller: the running minimum of a loop. */
  lemma {:induction false} MinSnoc(xs: seq<real>, x: real)
    requires |xs| > 0
    ensures Min(xs + [x]) == if x < Min(xs) then x else Min(xs)
  {
    assert (xs + [x])[..|xs|] == xs;
  }

  /** A running minimum that starts at 0 takes `x` exactly when `x` is
      strictly below it. */
  lemma LowestOrZeroSnoc(xs: seq<real>, x: real)
    ensures LowestOrZero(xs + [x]) == if x < LowestOrZero(xs) then x else LowestOrZero(xs)
  {
    if |xs| > 0 {
      MinSnoc(xs, x);
    } else {
      assert xs + [x] == [x];
    }
  }

  /** Counting positive elements one at a time. */
  lemma {:induction false} CountPositiveSnoc(xs: seq<real>, x: real)
    ensures CountPositive(xs + [x]) == CountPositive(xs) + (if x > 0.0 then 1 else 0)
  {
    assert (xs + [x])[..|xs|] == xs;
  }
}
