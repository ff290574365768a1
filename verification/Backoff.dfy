/** Retry delays (`computeBackoffMs` in `indexer/src/webhooks.js`), over real numbers of milliseconds. */
module Backoff {
  import opened Prelude

  datatype Policy = Policy(baseMs: real, maxMs: real, jitter: real)

  ghost predicate Sensible(policy: Policy) {
    policy.baseMs >= 0.0 && policy.maxMs >= 0.0 && policy.jitter >= 0.0
  }

  function Pow2(n: nat): (p: real)
    ensures p >= 1.0
  {
    if n == 0 then 1.0 else 2.0 * Pow2(n - 1)
  }

  function MinReal(a: real, b: real): real {
    if a < b then a else b
  }

  function Exponential(attempt: nat, policy: Policy): real {
    MinReal(policy.maxMs, policy.baseMs * Pow2(Max(0, attempt - 1)))
  }

  /** Rounding to the nearest whole number, halves upwards. */
  function Round(x: real): int {
    (x + 0.5).Floor
  }

  /** How far the jitter may move a delay. */
  function Spread(attempt: nat, policy: Policy): real {
    Exponential(attempt, policy) * policy.jitter
  }

  /** How far a random number between 0 and 1 moves it. */
  function Move(attempt: nat, policy: Policy, random: real): real {
    Spread(attempt, policy) * (random * 2.0 - 1.0)
  }

  function BackoffMs(attempt: nat, policy: Policy, random: real): int {
    Max(0, Round(Exponential(attempt, policy) + Move(attempt, policy, random)))
  }

  lemma Scatters(attempt: nat, policy: Policy, random: real)
    requires Spread(attempt, policy) >= 0.0 && 0.0 <= random <= 1.0
    ensures -Spread(attempt, policy) <= Move(attempt, policy, random) <= Spread(attempt, policy)
  {
    hide Spread;
    var spread := Spread(attempt, policy);
    var f := random * 2.0 - 1.0;
    assert spread * (f + 1.0) >= 0.0 && spread * (1.0 - f) >= 0.0;
    assert spread * (f + 1.0) == spread * f + spread && spread * (1.0 - f) == spread - spread * f;
  }

  lemma ClampedRound(e: real, move: real, spread: real)
    requires e >= 0.0 && -spread <= move <= spread
    ensures
      var delay := Max(0, Round(e + move));
      delay >= 0 && e - spread - 0.5 <= delay as real <= e + spread + 0.5
  {
    var x := e + move;
    assert x - 0.5 <= Round(x) as real <= x + 0.5;
  }

  lemma ExponentialIsPositive(attempt: nat, policy: Policy)
    requires Sensible(policy)
    ensures Exponential(attempt, policy) >= 0.0 && Spread(attempt, policy) >= 0.0
  {
    assert policy.baseMs * Pow2(Max(0, attempt - 1)) >= 0.0;
  }

  /** A delay is never negative and lies within the jitter, and half a millisecond for rounding, of the exponential. */
  lemma BackoffIsNearExponential(attempt: nat, policy: Policy, random: real)
    requires Sensible(policy) && 0.0 <= random <= 1.0
    ensures
      var e, spread, delay := Exponential(attempt, policy), Spread(attempt, policy), BackoffMs(attempt, policy, random);
      delay >= 0 && e - spread - 0.5 <= delay as real <= e + spread + 0.5
  {
    hide Exponential, Spread, Move, Round;
    ExponentialIsPositive(attempt, policy);
    Scatters(attempt, policy, random);
    ClampedRound(Exponential(attempt, policy), Move(attempt, policy, random), Spread(attempt, policy));
  }

  /** It starts at the base and doubles with every attempt until it reaches the cap. */
  lemma ExponentialDoubles(attempt: nat, policy: Policy)
    requires Sensible(policy) && attempt >= 1
    ensures Exponential(1, policy) == if policy.baseMs < policy.maxMs then policy.baseMs else policy.maxMs
    ensures
      var e := Exponential(attempt, policy);
      Exponential(attempt + 1, policy) == if e + e < policy.maxMs then e + e else policy.maxMs
  {
    var x := policy.baseMs * Pow2(attempt - 1);
    assert Pow2(0) == 1.0;
    assert policy.baseMs * Pow2(attempt) == x + x by {
      Twice(policy.baseMs, Pow2(attempt - 1));
    }
    assert x >= 0.0 by {
      NotNegative(policy.baseMs, Pow2(attempt - 1));
    }
  }

  lemma Twice(a: real, b: real)
    ensures a * (2.0 * b) == a * b + a * b
  {
  }

  /** Without jitter a delay is that, rounded. */
  lemma DelayWithoutJitter(attempt: nat, policy: Policy, random: real)
    requires Sensible(policy) && policy.jitter == 0.0
    ensures
      var e, delay := Exponential(attempt, policy), BackoffMs(attempt, policy, random) as real;
      delay - 0.5 <= e < delay + 0.5
  {
    hide Exponential;
    ExponentialIsPositive(attempt, policy);
    var e := Exponential(attempt, policy);
    assert Spread(attempt, policy) == 0.0 && Move(attempt, policy, random) == 0.0;
  }

  lemma DelayAt(attempt: nat, policy: Policy, random: real, x: real)
    requires x == Exponential(attempt, policy) + Move(attempt, policy, random) && x >= 0.0
    ensures -0.5 <= BackoffMs(attempt, policy, random) as real - x <= 0.5
  {
    hide Exponential, Move;
    ClampedRound(x, 0.0, 0.0);
  }

  lemma MovesAtEnds(attempt: nat, policy: Policy)
    requires Sensible(policy) && policy.jitter <= 1.0
    ensures
      var e := Exponential(attempt, policy);
      && Move(attempt, policy, 0.0) == -(e * policy.jitter) && Move(attempt, policy, 1.0) == e * policy.jitter
      && 0.0 <= e * policy.jitter <= e
  {
    ExponentialIsPositive(attempt, policy);
    hide Exponential;
    SpreadFits(Exponential(attempt, policy), policy.jitter);
    Ends(Spread(attempt, policy));
  }

  /** The jitter takes a delay from one end of its spread to the other as the random number goes from 0 to 1. */
  lemma JitterSpreads(attempt: nat, policy: Policy)
    requires Sensible(policy) && policy.jitter <= 1.0
    ensures
      var e, low, high := Exponential(attempt, policy), BackoffMs(attempt, policy, 0.0), BackoffMs(attempt, policy, 1.0);
      && -0.5 <= low as real - (e - e * policy.jitter) <= 0.5
      && -0.5 <= high as real - (e + e * policy.jitter) <= 0.5
  {
    MovesAtEnds(attempt, policy);
    hide *;
    var e, spread := Exponential(attempt, policy), Exponential(attempt, policy) * policy.jitter;
    DelayAt(attempt, policy, 0.0, e - spread);
    DelayAt(attempt, policy, 1.0, e + spread);
  }

  lemma SpreadFits(e: real, jitter: real)
    requires e >= 0.0 && 0.0 <= jitter <= 1.0
    ensures 0.0 <= e * jitter <= e
  {
    NotNegative(e, jitter);
    NotNegative(e, 1.0 - jitter);
  }

  lemma Ends(spread: real)
    ensures spread * (0.0 * 2.0 - 1.0) == -spread && spread * (1.0 * 2.0 - 1.0) == spread
  {
  }

  /** The delays after attempts 1 to `n`, each with its own random number. */
  function TotalDelay(randoms: seq<real>, policy: Policy): int {
    if randoms == [] then 0
    else TotalDelay(randoms[..|randoms| - 1], policy) + BackoffMs(|randoms|, policy, randoms[|randoms| - 1])
  }

  /** What `n` delays can add up to by doubling, with full jitter and rounding. */
  function DoublingBound(policy: Policy, n: nat): real {
    (1.0 + policy.jitter) * policy.baseMs * (Pow2(n) - 1.0) + n as real * 0.5
  }

  /** What they can add up to at the cap. */
  function CapBound(policy: Policy, n: nat): real {
    (1.0 + policy.jitter) * policy.maxMs * n as real + n as real * 0.5
  }

  /** All `n` delays together stay within both bounds. */
  lemma {:induction false} TotalDelayIsBounded(randoms: seq<real>, policy: Policy)
    requires Sensible(policy) && forall i | 0 <= i < |randoms| :: 0.0 <= randoms[i] <= 1.0
    ensures TotalDelay(randoms, policy) as real <= DoublingBound(policy, |randoms|)
    ensures TotalDelay(randoms, policy) as real <= CapBound(policy, |randoms|)
  {
    hide DoublingBound, CapBound, BackoffMs, Sensible;
    var n := |randoms|;
    if n > 0 {
      TotalDelayIsBounded(randoms[..n - 1], policy);
      DelayFits(n, policy, randoms[n - 1]);
    } else {
      NoDelay(policy);
    }
  }

  lemma NoDelay(policy: Policy)
    ensures DoublingBound(policy, 0) == 0.0 && CapBound(policy, 0) == 0.0
  {
  }

  lemma DelayFits(n: nat, policy: Policy, random: real)
    requires Sensible(policy) && n >= 1 && 0.0 <= random <= 1.0
    ensures DoublingBound(policy, n - 1) + BackoffMs(n, policy, random) as real <= DoublingBound(policy, n)
    ensures CapBound(policy, n - 1) + BackoffMs(n, policy, random) as real <= CapBound(policy, n)
  {
    BackoffIsNearExponential(n, policy, random);
    hide BackoffMs;
    DoublingFits(n, policy, BackoffMs(n, policy, random) as real);
    CapFits(n, policy, BackoffMs(n, policy, random) as real);
  }

  lemma DoublingFits(n: nat, policy: Policy, delay: real)
    requires Sensible(policy) && n >= 1 && delay <= Exponential(n, policy) + Spread(n, policy) + 0.5
    ensures DoublingBound(policy, n - 1) + delay <= DoublingBound(policy, n)
  {
    var e, top, p := Exponential(n, policy), policy.baseMs * Pow2(n - 1), Pow2(n - 1);
    Scales(e, top, policy.jitter);
    Regroups(policy.jitter, policy.baseMs, p);
    DoublingAdds((1.0 + policy.jitter) * policy.baseMs, p);
  }

  lemma CapFits(n: nat, policy: Policy, delay: real)
    requires Sensible(policy) && n >= 1 && delay <= Exponential(n, policy) + Spread(n, policy) + 0.5
    ensures CapBound(policy, n - 1) + delay <= CapBound(policy, n)
  {
    Scales(Exponential(n, policy), policy.maxMs, policy.jitter);
    CapAdds((1.0 + policy.jitter) * policy.maxMs, (n - 1) as real);
  }

  lemma DoublingAdds(g: real, p: real)
    ensures g * (p - 1.0) + g * p == g * (2.0 * p - 1.0)
  {
  }

  lemma CapAdds(m: real, k: real)
    ensures m * k + m == m * (k + 1.0)
  {
  }

  lemma Regroups(jitter: real, base: real, p: real)
    ensures (1.0 + jitter) * base * p == (1.0 + jitter) * (base * p)
  {
  }

  lemma Scales(e: real, top: real, jitter: real)
    requires e <= top && jitter >= 0.0
    ensures e + e * jitter <= (1.0 + jitter) * top
  {
    var gap := top - e;
    NotNegative(jitter, gap);
    assert (1.0 + jitter) * top == (1.0 + jitter) * e + (1.0 + jitter) * gap;
    assert (1.0 + jitter) * gap == gap + jitter * gap;
    assert (1.0 + jitter) * e == e + e * jitter;
  }

  lemma NotNegative(a: real, b: real)
    requires a >= 0.0 && b >= 0.0
    ensures a * b >= 0.0
  {
  }
}
