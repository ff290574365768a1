/** How far instants lie apart, and how many of a list fall into a half-open interval. */
module Intervals {

  /** Instants never differ by less than nothing. */
  function Since(now: nat, earlier: nat): nat {
    if now >= earlier then now - earlier else 0
  }

  /** How many of the times fall into `[low, high)`. */
  function CountIn(times: seq<int>, low: int, high: int): (n: nat)
    ensures n <= |times|
  {
    if times == [] then 0
    else CountIn(times[..|times| - 1], low, high) + if low <= times[|times| - 1] < high then 1 else 0
  }

  /** How many fall into the `length` ticks that start at `low`. */
  function CountWithin(times: seq<int>, low: int, length: nat): nat {
    CountIn(times, low, low + length)
  }

  lemma {:induction false} CountInSuffix(times: seq<int>, low: int, high: int, d: nat)
    requires d <= |times| && forall i | 0 <= i < d :: times[i] < low
    ensures CountIn(times, low, high) <= |times| - d
  {
    if times != [] {
      if d == |times| {
        CountInSuffix(times[..|times| - 1], low, high, d - 1);
      } else {
        CountInSuffix(times[..|times| - 1], low, high, d);
      }
    }
  }

  lemma CountAppended(times: seq<int>, t: int, low: int, high: int)
    ensures CountIn(times + [t], low, high) == CountIn(times, low, high) + if low <= t < high then 1 else 0
  {
    assert (times + [t])[..|times|] == times;
  }

  lemma {:induction false} CountSplits(times: seq<int>, low: int, middle: int, high: int)
    requires low <= middle <= high
    ensures CountIn(times, low, high) == CountIn(times, low, middle) + CountIn(times, middle, high)
  {
    if times != [] {
      CountSplits(times[..|times| - 1], low, middle, high);
    }
  }

  lemma {:induction false} CountGrows(times: seq<int>, low: int, high: int, low': int, high': int)
    requires low' <= low && high <= high'
    ensures CountIn(times, low, high) <= CountIn(times, low', high')
  {
    if times != [] {
      CountGrows(times[..|times| - 1], low, high, low', high');
    }
  }

  lemma {:induction false} NoneBeyond(times: seq<int>, low: int, high: int)
    requires forall i | 0 <= i < |times| :: times[i] < low
    ensures CountIn(times, low, high) == 0
  {
    if times != [] {
      NoneBeyond(times[..|times| - 1], low, high);
    }
  }
}
