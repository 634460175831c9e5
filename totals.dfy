/** Sums used by the aggregation code: a day-keyed map summed over an
    inclusive range of days, and a map summed over all of its keys. */
module Totals {

  /** `m[k] ?: 0`: the value stored for `k`, or 0 when the key is absent. */
  function ValueOrZero(m: map<int, int>, k: int): (v: int)
    ensures k in m ==> v == m[k]
    ensures k !in m ==> v == 0
  {
    if k in m then m[k] else 0
  }

  /** The sum of `ValueOrZero(m, d)` for every day `d` with `lo <= d <= hi`;
      0 for an empty range. */
  function SumRange(m: map<int, int>, lo: int, hi: int): int
    decreases hi - lo
  {
    if hi < lo then 0 else SumRange(m, lo, hi - 1) + ValueOrZero(m, hi)
  }

  /** A non-empty range is the range without its last day, plus that day. */
  lemma SumRangeStep(m: map<int, int>, lo: int, hi: int)
    requires lo <= hi
    ensures SumRange(m, lo, hi) == SumRange(m, lo, hi - 1) + ValueOrZero(m, hi)
  {
  }

  /** Splitting a range at any point inside it (or at its ends) keeps its sum. */
  lemma {:induction false} SumRangeSplit(m: map<int, int>, lo: int, mid: int, hi: int)
    requires lo <= mid + 1 <= hi + 1
    ensures SumRange(m, lo, hi) == SumRange(m, lo, mid) + SumRange(m, mid + 1, hi)
    decreases hi - mid
  {
    if hi == mid {
    } else {
      SumRangeSplit(m, lo, mid, hi - 1);
    }
  }

  /** Days outside the map contribute nothing: a range of absent days sums to 0. */
  lemma {:induction false} SumRangeOfAbsentDays(m: map<int, int>, lo: int, hi: int)
    requires forall d :: lo <= d <= hi ==> d !in m
    ensures SumRange(m, lo, hi) == 0
    decreases hi - lo
  {
    if lo <= hi {
      SumRangeOfAbsentDays(m, lo, hi - 1);
    }
  }

  /** Two maps that agree on every day of a range have the same sum over it. */
  lemma {:induction false} SumRangeAgree(m: map<int, int>, n: map<int, int>, lo: int, hi: int)
    requires forall d :: lo <= d <= hi ==> ValueOrZero(m, d) == ValueOrZero(n, d)
    ensures SumRange(m, lo, hi) == SumRange(n, lo, hi)
    decreases hi - lo
  {
    if lo <= hi {
      SumRangeAgree(m, n, lo, hi - 1);
    }
  }

  /** A map that is not empty has a key. */
  lemma HasKey(m: map<int, int>)
    requires m != map[]
    ensures exists k :: k in m
  {
    if forall k :: k !in m {
      assert false;
    }
  }

  /** A set that is not empty has an element. */
  lemma HasElement(s: set<int>)
    requires s != {}
    ensures exists x :: x in s
  {
    if forall x :: x !in s {
      assert false;
    }
  }

  /** Some key of a non-empty map; the one `MapSum` peels off first. */
  ghost function Pick(m: map<int, int>): (k: int)
    requires m != map[]
    ensures k in m
  {
    HasKey(m);
    var k :| k in m; k
  }

  /** The sum of all values of `m`. */
  ghost function MapSum(m: map<int, int>): int
    decreases |m|
  {
    if m == map[] then 0 else m[Pick(m)] + MapSum(m - {Pick(m)})
  }

  /** `MapSum` does not depend on the order in which keys are removed. */
  lemma {:induction false} MapSumRemove(m: map<int, int>, k: int)
    requires k in m
    ensures MapSum(m) == m[k] + MapSum(m - {k})
    decreases |m|
  {
    var j := Pick(m);
    if j != k {
      var mj := m - {j};
      var mk := m - {k};
      assert k in mj && j in mk;
      MapSumRemove(mj, k);
      MapSumRemove(mk, j);
      assert mj - {k} == mk - {j};
    }
  }

  /** Adding `c` to the value of one key (creating it with `c` when absent)
      adds `c` to the sum of the map. */
  lemma MapSumAdd(m: map<int, int>, k: int, c: int)
    ensures MapSum(m[k := ValueOrZero(m, k) + c]) == MapSum(m) + c
  {
    var m' := m[k := ValueOrZero(m, k) + c];
    MapSumRemove(m', k);
    assert m' - {k} == m - {k};
    if k in m {
      MapSumRemove(m, k);
    } else {
      assert m - {k} == m;
    }
  }

  /** A range that holds every key of the map sums to the whole map. */
  lemma {:induction false} SumRangeCoversMap(m: map<int, int>, lo: int, hi: int)
    requires forall k :: k in m ==> lo <= k <= hi
    ensures SumRange(m, lo, hi) == MapSum(m)
    decreases hi - lo
  {
    if hi < lo {
      if m != map[] {
        HasKey(m);
      }
    } else {
      var rest := m - {hi};
      SumRangeAgree(m, rest, lo, hi - 1);
      SumRangeCoversMap(rest, lo, hi - 1);
      if hi in m {
        MapSumRemove(m, hi);
      } else {
        assert rest == m;
      }
    }
  }
}
