/** Values shared by every component of the engine: optional results and the
    string-keyed number records (`Record<string, number>`) in which the data
    provider delivers mean returns and in which portfolio weights are kept. */
module Base {

  /** A value that may be absent (`null` or `undefined` in the original program). */
  datatype Option<+T> = None | Some(value: T)

  /** An asset identifier, such as "PETR4.SA". */
  type Ticker = string

  /** One own property `key: val` of a record object. */
  datatype Entry = Entry(key: Ticker, val: real)

  /** No key occurs twice, as in every object. */
  predicate DistinctKeys(es: seq<Entry>) {
    forall i, j :: 0 <= i < j < |es| ==> es[i].key != es[j].key
  }

  /** A record object, its properties listed in enumeration order
      (the order of `Object.keys` and `Object.entries`). */
  type Record = es: seq<Entry> | DistinctKeys(es) witness []

  /** `Object.keys(r)` */
  function Keys(r: seq<Entry>): seq<Ticker> {
    seq(|r|, i requires 0 <= i < |r| => r[i].key)
  }

  /** `Object.values(r)` */
  function Values(r: seq<Entry>): seq<real> {
    seq(|r|, i requires 0 <= i < |r| => r[i].val)
  }

  /** The record with the keys of `r`, in the same order, and the values `vs`. */
  function WithValues(r: Record, vs: seq<real>): (w: Record)
    requires |vs| == |r|
    ensures Keys(w) == Keys(r)
    ensures Values(w) == vs
  {
    var w := seq(|r|, i requires 0 <= i < |r| => Entry(r[i].key, vs[i]));
    assert forall i :: 0 <= i < |r| ==> w[i].key == r[i].key;
    w
  }
}
