/**
 Two ways to keep a latency histogram: the API counts each observation once and adds up when rendering
 (`analytics-api/src/metrics.rs`), the indexer counts it under every bound it fits (`indexer/src/metrics.js`).
 */
module Histograms {

  /** What a scrape should show for a bound: how many observations are at most that. */
  function CountAtMost(values: seq<real>, bound: real): nat {
    if values == [] then 0
    else CountAtMost(values[..|values| - 1], bound) + if values[|values| - 1] <= bound then 1 else 0
  }

  ghost predicate Ascending(bounds: seq<real>) {
    forall i, j | 0 <= i <= j < |bounds| :: bounds[i] <= bounds[j]
  }

  function Zeros(n: nat): (z: seq<nat>)
    ensures |z| == n && forall i | 0 <= i < n :: z[i] == 0
  {
    seq(n, i => 0)
  }

  // ----- Counting once -----

  /** Of the bounds from `from` on, the first that the value does not exceed, or how many there are. */
  function FirstBucket(bounds: seq<real>, value: real, from: nat): (k: nat)
    requires from <= |bounds|
    ensures from <= k <= |bounds|
    ensures k < |bounds| ==> value <= bounds[k]
    ensures forall i | from <= i < k :: value > bounds[i]
    decreases |bounds| - from
  {
    if from == |bounds| || value <= bounds[from] then from else FirstBucket(bounds, value, from + 1)
  }

  function CountFirst(bounds: seq<real>, values: seq<real>, k: nat): nat {
    if values == [] then 0
    else CountFirst(bounds, values[..|values| - 1], k)
         + if FirstBucket(bounds, values[|values| - 1], 0) == k then 1 else 0
  }

  /** The sum of the buckets up to and including the k-th. */
  function Cumulative(bounds: seq<real>, values: seq<real>, k: nat): nat {
    CountFirst(bounds, values, k) + if k == 0 then 0 else Cumulative(bounds, values, k - 1)
  }

  lemma CumulativeStep(bounds: seq<real>, values: seq<real>, k: nat)
    ensures Cumulative(bounds, values, k)
            == CountFirst(bounds, values, k) + if k == 0 then 0 else Cumulative(bounds, values, k - 1)
  {
  }

  lemma NothingCounted(bounds: seq<real>, k: nat)
    ensures CountFirst(bounds, [], k) == 0
  {
  }

  class Histogram {
    const bounds: seq<real>
    var buckets: seq<nat>
    var sum: real
    var count: nat
    ghost var observed: seq<real>

    ghost predicate Valid()
      reads this
    {
      && count == |observed|
      && (observed == [] ==> buckets == [])
      && (observed != [] ==> |buckets| == |bounds|)
      && forall k | 0 <= k < |buckets| :: buckets[k] == CountFirst(bounds, observed, k)
    }

    constructor (bounds: seq<real>)
      ensures Valid() && this.bounds == bounds && observed == []
    {
      this.bounds := bounds;
      buckets, sum, count, observed := [], 0.0, 0, [];
    }

    method Observe(value: real)
      requires Valid()
      modifies this
      ensures Valid() && observed == old(observed) + [value] && sum == old(sum) + value
    {
      if buckets == [] {
        buckets := Zeros(|bounds|);
      }
      var index := 0;
      while index < |bounds| && value > bounds[index]
        invariant index <= |bounds| && FirstBucket(bounds, value, 0) == FirstBucket(bounds, value, index)
      {
        index := index + 1;
      }
      if index < |bounds| {
        buckets := buckets[index := buckets[index] + 1];
      }
      sum := sum + value;
      count := count + 1;
      assert (observed + [value])[..|observed|] == observed;
      observed := observed + [value];
    }

    /** The bucket lines of a scrape, without the one for infinity, which shows `count`. */
    method Render() returns (lines: seq<nat>)
      requires Valid()
      ensures |lines| == |bounds| && forall k | 0 <= k < |bounds| :: lines[k] == Cumulative(bounds, observed, k)
    {
      hide CountFirst, Cumulative;
      lines := [];
      var cumulative := 0;
      for k := 0 to |bounds|
        invariant |lines| == k && forall i | 0 <= i < k :: lines[i] == Cumulative(bounds, observed, i)
        invariant cumulative == if k == 0 then 0 else Cumulative(bounds, observed, k - 1)
      {
        CumulativeStep(bounds, observed, k);
        if k < |buckets| {
          cumulative := cumulative + buckets[k];
        } else {
          NothingCounted(bounds, k);
        }
        lines := lines + [cumulative];
      }
    }
  }

  // ----- Counting under every bound -----

  class BoundCounter {
    const bounds: seq<real>
    var counts: seq<nat>
    var sum: real
    var count: nat
    ghost var observed: seq<real>

    /** What is kept for a bound is what is rendered for it, whatever the order of the bounds. */
    ghost predicate Valid()
      reads this
    {
      && count == |observed| && |counts| == |bounds|
      && forall k | 0 <= k < |bounds| :: counts[k] == CountAtMost(observed, bounds[k])
    }

    constructor (bounds: seq<real>)
      ensures Valid() && this.bounds == bounds && observed == []
    {
      this.bounds := bounds;
      counts, sum, count, observed := Zeros(|bounds|), 0.0, 0, [];
    }

    method Observe(value: real)
      requires Valid()
      modifies this
      ensures Valid() && observed == old(observed) + [value] && sum == old(sum) + value
    {
      ghost var was := counts;
      for k := 0 to |bounds|
        invariant |counts| == |bounds| && observed == old(observed) && count == old(count) && sum == old(sum)
        invariant forall i | k <= i < |bounds| :: counts[i] == was[i]
        invariant forall i | 0 <= i < k :: counts[i] == was[i] + if value <= bounds[i] then 1 else 0
      {
        if value <= bounds[k] {
          counts := counts[k := counts[k] + 1];
        }
      }
      sum := sum + value;
      count := count + 1;
      assert (observed + [value])[..|observed|] == observed;
      observed := observed + [value];
    }
  }

  // ----- They agree -----

  /** The prefix sums count, for each bound, the values whose first bucket is no later. */
  function CountFirstUpTo(bounds: seq<real>, values: seq<real>, k: nat): nat {
    if values == [] then 0
    else CountFirstUpTo(bounds, values[..|values| - 1], k)
         + if FirstBucket(bounds, values[|values| - 1], 0) <= k then 1 else 0
  }

  lemma {:induction false} OneMoreBucket(bounds: seq<real>, values: seq<real>, k: nat)
    requires k > 0
    ensures CountFirstUpTo(bounds, values, k) == CountFirst(bounds, values, k) + CountFirstUpTo(bounds, values, k - 1)
  {
    if values != [] {
      OneMoreBucket(bounds, values[..|values| - 1], k);
    }
  }

  lemma {:induction false} FirstBucketOnly(bounds: seq<real>, values: seq<real>)
    ensures CountFirstUpTo(bounds, values, 0) == CountFirst(bounds, values, 0)
  {
    if values != [] {
      FirstBucketOnly(bounds, values[..|values| - 1]);
    }
  }

  lemma {:induction false} CumulativeCounts(bounds: seq<real>, values: seq<real>, k: nat)
    ensures Cumulative(bounds, values, k) == CountFirstUpTo(bounds, values, k)
  {
    if k == 0 {
      FirstBucketOnly(bounds, values);
    } else {
      CumulativeCounts(bounds, values, k - 1);
      OneMoreBucket(bounds, values, k);
    }
  }

  lemma {:induction false} AscendingCounts(bounds: seq<real>, values: seq<real>, k: nat)
    requires Ascending(bounds) && k < |bounds|
    ensures CountFirstUpTo(bounds, values, k) == CountAtMost(values, bounds[k])
  {
    if values != [] {
      var last := values[|values| - 1];
      AscendingCounts(bounds, values[..|values| - 1], k);
      var first := FirstBucket(bounds, last, 0);
      assert first <= k ==> last <= bounds[first] <= bounds[k];
    }
  }

  /** Both render the number of observations at most each bound. */
  lemma HistogramsAgree(bounds: seq<real>, values: seq<real>, k: nat)
    requires Ascending(bounds) && k < |bounds|
    ensures Cumulative(bounds, values, k) == CountAtMost(values, bounds[k])
  {
    CumulativeCounts(bounds, values, k);
    AscendingCounts(bounds, values, k);
  }

  /** Adding up first buckets gives that number for all observations exactly when the bounds ascend. */
  lemma AgreeExactlyWhenAscending(bounds: seq<real>)
    ensures Ascending(bounds) <==>
            forall values: seq<real>, k: nat | k < |bounds| ::
              Cumulative(bounds, values, k) == CountAtMost(values, bounds[k])
  {
    if Ascending(bounds) {
      forall values: seq<real>, k: nat | k < |bounds|
        ensures Cumulative(bounds, values, k) == CountAtMost(values, bounds[k]) {
        HistogramsAgree(bounds, values, k);
      }
    } else {
      var i: nat, j: nat :| i <= j < |bounds| && bounds[i] > bounds[j];
      var values := [bounds[i]];
      CumulativeCounts(bounds, values, j);
      assert values[..0] == [];
      assert FirstBucket(bounds, bounds[i], 0) <= i;
      assert Cumulative(bounds, values, j) != CountAtMost(values, bounds[j]);
    }
  }
}
