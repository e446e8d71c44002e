/** Orderings by a real-valued key: the `reduce`-based argmax selections, the
    comparator sort of `Array.prototype.sort`, and rank counts that describe an
    order statistic without reference to any sorting procedure. */
module Ordering {

  /** `xs[k]` has the greatest key among `xs[..n]` and no earlier element has
      that key: the element a first-wins argmax keeps. */
  ghost predicate IsFirstArgMax<T>(xs: seq<T>, key: T -> real, k: int, n: int) {
    && 0 <= k < n <= |xs|
    && (forall j :: 0 <= j < n ==> key(xs[j]) <= key(xs[k]))
    && (forall j :: 0 <= j < k ==> key(xs[j]) < key(xs[k]))
  }

  /** `xs[k]` has the greatest key among `xs[..n]` and no later element of
      `xs[..n]` has that key: the element a last-wins argmax keeps. */
  ghost predicate IsLastArgMax<T>(xs: seq<T>, key: T -> real, k: int, n: int) {
    && 0 <= k < n <= |xs|
    && (forall j :: 0 <= j < n ==> key(xs[j]) <= key(xs[k]))
    && (forall j :: k < j < n ==> key(xs[j]) < key(xs[k]))
  }

  /** `xs.reduce((best, cur) => key(cur) > key(best) ? cur : best)` continued
      from index `i`, the accumulator `best` being the index of the element it
      holds. A strictly greater key is needed to replace it, so the first of
      equal keys survives. */
  function ReduceFirstMax<T>(xs: seq<T>, key: T -> real, best: nat, i: nat): (r: nat)
    requires IsFirstArgMax(xs, key, best, i)
    ensures IsFirstArgMax(xs, key, r, |xs|)
    decreases |xs| - i
  {
    if i == |xs| then best
    else ReduceFirstMax(xs, key, if key(xs[i]) > key(xs[best]) then i else best, i + 1)
  }

  /** `xs.reduce((best, cur) => key(best) > key(cur) ? best : cur)` continued
      from index `i`: the accumulator is replaced unless it is strictly greater,
      so the last of equal keys survives. */
  function ReduceLastMax<T>(xs: seq<T>, key: T -> real, best: nat, i: nat): (r: nat)
    requires IsLastArgMax(xs, key, best, i)
    ensures IsLastArgMax(xs, key, r, |xs|)
    decreases |xs| - i
  {
    if i == |xs| then best
    else ReduceLastMax(xs, key, if key(xs[best]) > key(xs[i]) then best else i, i + 1)
  }

  /** The index a first-wins `reduce` without initial value ends on. */
  function FirstArgMax<T>(xs: seq<T>, key: T -> real): (k: nat)
    requires |xs| > 0
    ensures IsFirstArgMax(xs, key, k, |xs|)
  {
    ReduceFirstMax(xs, key, 0, 1)
  }

  /** The index a last-wins `reduce` without initial value ends on. */
  function LastArgMax<T>(xs: seq<T>, key: T -> real): (k: nat)
    requires |xs| > 0
    ensures IsLastArgMax(xs, key, k, |xs|)
  {
    ReduceLastMax(xs, key, 0, 1)
  }

  /** The first-wins argmax is determined by the elements' keys alone. */
  lemma FirstArgMaxUnique<T>(xs: seq<T>, key: T -> real, k: int, k': int, n: int)
    requires IsFirstArgMax(xs, key, k, n) && IsFirstArgMax(xs, key, k', n)
    ensures k == k'
  {
    assert key(xs[k]) == key(xs[k']);
  }

  /** The first-wins argmax of `[x] + ys` is `x` unless `ys` holds a strictly
      greater key, and then it is the first-wins argmax of `ys`, shifted. */
  lemma FirstArgMaxCons<T>(x: T, ys: seq<T>, key: T -> real)
    requires |ys| > 0
    ensures FirstArgMax([x] + ys, key)
         == if key(ys[FirstArgMax(ys, key)]) > key(x) then 1 + FirstArgMax(ys, key) else 0
  {
    var xs := [x] + ys;
    var k := FirstArgMax(ys, key);
    var c := if key(ys[k]) > key(x) then 1 + k else 0;
    assert forall j :: 1 <= j < |xs| ==> xs[j] == ys[j - 1];
    assert IsFirstArgMax(xs, key, c, |xs|);
    FirstArgMaxUnique(xs, key, c, FirstArgMax(xs, key), |xs|);
  }

  /** Both selections reach the same greatest key; they differ only in which
      of several elements carrying it they keep. */
  lemma ArgMaxKeysAgree<T>(xs: seq<T>, key: T -> real)
    requires |xs| > 0
    ensures key(xs[FirstArgMax(xs, key)]) == key(xs[LastArgMax(xs, key)])
  {
    var f := FirstArgMax(xs, key);
    var l := LastArgMax(xs, key);
    assert key(xs[f]) <= key(xs[l]) && key(xs[l]) <= key(xs[f]);
  }

  /** When exactly one element carries the greatest key, both selections
      keep it. */
  lemma ArgMaxAgreeOnUniqueMax<T>(xs: seq<T>, key: T -> real, k: nat)
    requires k < |xs|
    requires forall j :: 0 <= j < |xs| && j != k ==> key(xs[j]) < key(xs[k])
    ensures FirstArgMax(xs, key) == k && LastArgMax(xs, key) == k
  {
  }

  /** Keys never decrease along `s`. */
  ghost predicate SortedBy<T>(s: seq<T>, key: T -> real) {
    forall i, j :: 0 <= i < j < |s| ==> key(s[i]) <= key(s[j])
  }

  /** Keys strictly increase along `s`. */
  ghost predicate StrictlyAscendingBy<T>(s: seq<T>, key: T -> real) {
    forall i, j :: 0 <= i < j < |s| ==> key(s[i]) < key(s[j])
  }

  /** Inserts `x` into the sorted `s` in front of the first element whose key
      is not smaller, so that `x` stays ahead of elements with an equal key.
      No key of the result is below both `x`'s key and the first key of `s`
      (it is a permutation of `x` and `s`, by `InsertPermutes`). */
  function Insert<T>(x: T, s: seq<T>, key: T -> real): (r: seq<T>)
    requires SortedBy(s, key)
    ensures SortedBy(r, key)
    ensures |r| == |s| + 1
    ensures forall j :: 0 <= j < |r| ==> LeastKey(x, s, key) <= key(r[j])
    decreases |s|
  {
    if |s| == 0 || key(x) <= key(s[0]) then
      [x] + s
    else
      var t := Insert(x, s[1..], key);
      assert |s| > 1 ==> key(s[0]) <= key(s[1]);
      [s[0]] + t
  }

  /** The smaller of `x`'s key and the first key of the sorted `s`. */
  function LeastKey<T>(x: T, s: seq<T>, key: T -> real): real {
    if |s| == 0 || key(x) <= key(s[0]) then key(x) else key(s[0])
  }

  lemma {:induction false} InsertPermutes<T>(x: T, s: seq<T>, key: T -> real)
    requires SortedBy(s, key)
    ensures multiset(Insert(x, s, key)) == multiset(s) + multiset{x}
    decreases |s|
  {
    if |s| > 0 && key(x) > key(s[0]) {
      InsertPermutes(x, s[1..], key);
      assert s == [s[0]] + s[1..];
    }
  }

  /** A stable ascending sort by `key`: the result of
      `xs.sort((a, b) => key(a) - key(b))`. It is a permutation of `xs`, by
      `SortByPermutes`. */
  function SortBy<T>(xs: seq<T>, key: T -> real): (r: seq<T>)
    ensures SortedBy(r, key)
    ensures |r| == |xs|
    decreases |xs|
  {
    if |xs| == 0 then []
    else Insert(xs[0], SortBy(xs[1..], key), key)
  }

  /** Sorting rearranges the elements and neither adds nor drops any. */
  lemma {:induction false} SortByPermutes<T>(xs: seq<T>, key: T -> real)
    ensures multiset(SortBy(xs, key)) == multiset(xs)
    decreases |xs|
  {
    if |xs| > 0 {
      SortByPermutes(xs[1..], key);
      InsertPermutes(xs[0], SortBy(xs[1..], key), key);
      assert xs == [xs[0]] + xs[1..];
    }
  }

  /** Sorting a sequence that is already in order changes nothing; in
      particular the elements keep their order among equal keys. */
  lemma {:induction false} SortSortedIsIdentity<T>(xs: seq<T>, key: T -> real)
    requires SortedBy(xs, key)
    ensures SortBy(xs, key) == xs
    decreases |xs|
  {
    if |xs| > 0 {
      SortSortedIsIdentity(xs[1..], key);
      assert xs == [xs[0]] + xs[1..];
    }
  }

  /** `v < x`, or `v <= x` when `inclusive` holds. */
  predicate Below(v: real, x: real, inclusive: bool) {
    if inclusive then v <= x else v < x
  }

  /** How many elements have a key below `x` (at most `x` when `inclusive`). */
  function CountBelow<T>(xs: seq<T>, key: T -> real, x: real, inclusive: bool): (n: nat)
    ensures n <= |xs|
    decreases |xs|
  {
    if |xs| == 0 then 0
    else (if Below(key(xs[0]), x, inclusive) then 1 else 0) + CountBelow(xs[1..], key, x, inclusive)
  }

  lemma {:induction false} CountBelowAppend<T>(a: seq<T>, b: seq<T>, key: T -> real, x: real, inclusive: bool)
    ensures CountBelow(a + b, key, x, inclusive)
         == CountBelow(a, key, x, inclusive) + CountBelow(b, key, x, inclusive)
    decreases |a|
  {
    if |a| > 0 {
      assert (a + b)[1..] == a[1..] + b;
      CountBelowAppend(a[1..], b, key, x, inclusive);
    } else {
      assert a + b == b;
    }
  }

  lemma {:induction false} CountBelowInsert<T>(y: T, s: seq<T>, key: T -> real, x: real, inclusive: bool)
    requires SortedBy(s, key)
    ensures CountBelow(Insert(y, s, key), key, x, inclusive)
         == CountBelow(s, key, x, inclusive) + (if Below(key(y), x, inclusive) then 1 else 0)
    decreases |s|
  {
    if |s| > 0 && key(y) > key(s[0]) {
      CountBelowInsert(y, s[1..], key, x, inclusive);
      assert ([s[0]] + Insert(y, s[1..], key))[1..] == Insert(y, s[1..], key);
    } else {
      assert ([y] + s)[1..] == s;
    }
  }

  /** Sorting does not change how many elements lie below a bound. */
  lemma {:induction false} CountBelowSort<T>(xs: seq<T>, key: T -> real, x: real, inclusive: bool)
    ensures CountBelow(SortBy(xs, key), key, x, inclusive) == CountBelow(xs, key, x, inclusive)
    decreases |xs|
  {
    if |xs| > 0 {
      CountBelowSort(xs[1..], key, x, inclusive);
      CountBelowInsert(xs[0], SortBy(xs[1..], key), key, x, inclusive);
    }
  }

  lemma {:induction false} CountBelowNone<T>(xs: seq<T>, key: T -> real, x: real, inclusive: bool)
    requires forall j :: 0 <= j < |xs| ==> !Below(key(xs[j]), x, inclusive)
    ensures CountBelow(xs, key, x, inclusive) == 0
    decreases |xs|
  {
    if |xs| > 0 {
      CountBelowNone(xs[1..], key, x, inclusive);
    }
  }

  lemma {:induction false} CountBelowAll<T>(xs: seq<T>, key: T -> real, x: real, inclusive: bool)
    requires forall j :: 0 <= j < |xs| ==> Below(key(xs[j]), x, inclusive)
    ensures CountBelow(xs, key, x, inclusive) == |xs|
    decreases |xs|
  {
    if |xs| > 0 {
      CountBelowAll(xs[1..], key, x, inclusive);
    }
  }

  /** In a sorted sequence, at most `k` elements are strictly below `s[k]` and
      at least `k + 1` are at most `s[k]`. */
  lemma {:induction false} SortedRank<T>(s: seq<T>, key: T -> real, k: nat)
    requires SortedBy(s, key) && k < |s|
    ensures CountBelow(s, key, key(s[k]), false) <= k
    ensures k < CountBelow(s, key, key(s[k]), true)
  {
    var v := key(s[k]);
    assert s == s[..k] + s[k..];
    CountBelowAppend(s[..k], s[k..], key, v, false);
    CountBelowNone(s[k..], key, v, false);
    assert s == s[..k + 1] + s[k + 1..];
    CountBelowAppend(s[..k + 1], s[k + 1..], key, v, true);
    CountBelowAll(s[..k + 1], key, v, true);
  }

  /** The element at index `k` of the sorted sequence is the (k+1)-th smallest
      of `xs`: at most `k` elements of `xs` are smaller and more than `k` are
      smaller or equal. This pins its key down without reference to sorting. */
  lemma {:induction false} OrderStatistic<T>(xs: seq<T>, key: T -> real, k: nat)
    requires k < |xs|
    ensures CountBelow(xs, key, key(SortBy(xs, key)[k]), false) <= k
    ensures k < CountBelow(xs, key, key(SortBy(xs, key)[k]), true)
  {
    var s := SortBy(xs, key);
    var v := key(s[k]);
    SortedRank(s, key, k);
    CountBelowSort(xs, key, v, false);
    CountBelowSort(xs, key, v, true);
  }

  /** A key value meeting the rank conditions of `OrderStatistic` is unique,
      so the order statistic does not depend on the sorting procedure. */
  lemma {:induction false} RankDeterminesValue<T>(xs: seq<T>, key: T -> real, k: nat, v: real, w: real)
    requires CountBelow(xs, key, v, false) <= k < CountBelow(xs, key, v, true)
    requires CountBelow(xs, key, w, false) <= k < CountBelow(xs, key, w, true)
    ensures v == w
  {
    if v < w {
      CountBelowMonotone(xs, key, v, w);
    } else if w < v {
      CountBelowMonotone(xs, key, w, v);
    }
  }

  /** Everything at most `v` is strictly below any `w > v`. */
  lemma {:induction false} CountBelowMonotone<T>(xs: seq<T>, key: T -> real, v: real, w: real)
    requires v < w
    ensures CountBelow(xs, key, v, true) <= CountBelow(xs, key, w, false)
    decreases |xs|
  {
    if |xs| > 0 {
      CountBelowMonotone(xs[1..], key, v, w);
    }
  }

  /** A count of 0 means no element lies below the bound, and a positive
      count means some element does. */
  lemma {:induction false} CountBelowWitness<T>(xs: seq<T>, key: T -> real, x: real, inclusive: bool)
    ensures CountBelow(xs, key, x, inclusive) == 0 ==> forall j :: 0 <= j < |xs| ==> !Below(key(xs[j]), x, inclusive)
    ensures CountBelow(xs, key, x, inclusive) > 0 ==> exists j :: 0 <= j < |xs| && Below(key(xs[j]), x, inclusive)
    decreases |xs|
  {
    if |xs| > 0 {
      CountBelowWitness(xs[1..], key, x, inclusive);
      assert forall j :: 1 <= j < |xs| ==> xs[j] == xs[1..][j - 1];
      if CountBelow(xs, key, x, inclusive) > 0 && !Below(key(xs[0]), x, inclusive) {
        var j :| 0 <= j < |xs[1..]| && Below(key(xs[1..][j]), x, inclusive);
        assert Below(key(xs[j + 1]), x, inclusive);
      }
    }
  }
}
