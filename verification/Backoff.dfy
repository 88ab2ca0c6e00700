/** The delays between the attempts of a job (`RETRY_BACKOFF_SECONDS`, `jitterSeconds` and
    the worker's backoff strategy), in seconds and over the real numbers. */
module Backoff {
  const RETRY_BACKOFF_SECONDS: seq<nat> := [2, 5, 15, 45, 120, 300, 900, 1800]

  /** What the random source returns. */
  predicate Random(x: real) {
    0.0 <= x < 1.0
  }

  /** `Math.round`: the nearest integer, and the larger one of two that are equally near. */
  function Round(x: real): (n: int)
    ensures n as real - 0.5 <= x < n as real + 0.5
  {
    (x + 0.5).Floor
  }

  function JitterSeconds(base: nat, random: real): (seconds: nat)
    requires Random(random)
    ensures seconds >= 1
  {
    var n := Round(base as real * (random * 0.3 + 0.85));
    if n > 1 then n else 1
  }

  /** The worker's strategy after `attemptsMade` attempts. */
  function BackoffIndex(attemptsMade: int): (i: nat)
    ensures i < |RETRY_BACKOFF_SECONDS|
  {
    var capped := if attemptsMade - 1 < |RETRY_BACKOFF_SECONDS| - 1 then attemptsMade - 1
      else |RETRY_BACKOFF_SECONDS| - 1;
    if capped > 0 then capped else 0
  }

  function Delay(attemptsMade: int, random: real): nat
    requires Random(random)
  {
    JitterSeconds(RETRY_BACKOFF_SECONDS[BackoffIndex(attemptsMade)], random)
  }

  /** The shortest and the longest delay, per index. */
  const SHORTEST: seq<nat> := [2, 4, 13, 38, 102, 255, 765, 1530]
  const LONGEST: seq<nat> := [2, 6, 17, 52, 138, 345, 1035, 2070]

  /** `Round` is the only integer within half a unit, halves going up. */
  lemma RoundIs(x: real, n: int)
    requires n as real - 0.5 <= x < n as real + 0.5
    ensures Round(x) == n
  {}

  /** The factor lies in [0.85, 1.15), so the delay lies in a fixed interval of integers. */
  lemma DelayBounds(attemptsMade: int, random: real)
    requires Random(random)
    ensures SHORTEST[BackoffIndex(attemptsMade)] <= Delay(attemptsMade, random) <= LONGEST[BackoffIndex(attemptsMade)]
  {
    hide Round;
    var i := BackoffIndex(attemptsMade);
    var base := RETRY_BACKOFF_SECONDS[i];
    var f := random * 0.3 + 0.85;
    assert 0.85 <= f < 1.15;
    assert base as real * 0.85 <= base as real * f < base as real * 1.15;
    var n := Round(base as real * f);
    assert SHORTEST[i] as real - 0.5 <= base as real * 0.85;
    assert base as real * 1.15 <= LONGEST[i] as real + 0.5;
    assert SHORTEST[i] as real - 1.0 < n as real < LONGEST[i] as real + 1.0;
  }

  /** Both ends of every interval are reached. */
  lemma BoundsAreReached(attemptsMade: int)
    ensures Delay(attemptsMade, 0.0) == SHORTEST[BackoffIndex(attemptsMade)]
    ensures Delay(attemptsMade, 0.9999) == LONGEST[BackoffIndex(attemptsMade)]
  {
    hide Round;
    var i := BackoffIndex(attemptsMade);
    var base := RETRY_BACKOFF_SECONDS[i] as real;
    assert 0.0 * 0.3 + 0.85 == 0.85 && 0.9999 * 0.3 + 0.85 == 1.14997;
    assert SHORTEST[i] as real - 0.5 <= base * 0.85 < SHORTEST[i] as real + 0.5;
    assert LONGEST[i] as real - 0.5 <= base * 1.14997 < LONGEST[i] as real + 0.5;
    RoundIs(base * 0.85, SHORTEST[i]);
    RoundIs(base * 1.14997, LONGEST[i]);
  }

  /** Whatever the two draws are, the delay after one more attempt is longer, as long as the
      table has a further entry; after that the delay is drawn from the last entry again. */
  lemma DelaysIncrease(attemptsMade: int, x: real, y: real)
    requires Random(x) && Random(y)
    requires 1 <= attemptsMade < |RETRY_BACKOFF_SECONDS|
    ensures Delay(attemptsMade, x) < Delay(attemptsMade + 1, y)
  {
    hide Delay;
    DelayBounds(attemptsMade, x);
    DelayBounds(attemptsMade + 1, y);
  }

  /** The waiting time of a job that fails `|draws| + 1` times: a delay after every attempt but the last. */
  function Waited(draws: seq<real>): nat
    requires forall i | 0 <= i < |draws| :: Random(draws[i])
  {
    if draws == [] then 0 else Waited(draws[..|draws| - 1]) + Delay(|draws|, draws[|draws| - 1])
  }

  function SumTo(table: seq<nat>, n: nat): nat
    requires n <= |table|
  {
    if n == 0 then 0 else SumTo(table, n - 1) + table[n - 1]
  }

  lemma {:induction false} WaitedBounds(draws: seq<real>)
    requires forall i | 0 <= i < |draws| :: Random(draws[i])
    requires |draws| <= |RETRY_BACKOFF_SECONDS|
    ensures SumTo(SHORTEST, |draws|) <= Waited(draws) <= SumTo(LONGEST, |draws|)
  {
    hide Delay;
    if draws != [] {
      WaitedBounds(draws[..|draws| - 1]);
      DelayBounds(|draws|, draws[|draws| - 1]);
    }
  }

  lemma TableSums()
    ensures SumTo(SHORTEST, 4) == 57 && SumTo(LONGEST, 4) == 77
    ensures SumTo(SHORTEST, 7) == 1179 && SumTo(LONGEST, 7) == 1595
  {
    assert SumTo(SHORTEST, 1) == 2 && SumTo(LONGEST, 1) == 2;
    assert SumTo(SHORTEST, 2) == 6 && SumTo(LONGEST, 2) == 8;
    assert SumTo(SHORTEST, 3) == 19 && SumTo(LONGEST, 3) == 25;
    assert SumTo(SHORTEST, 4) == 57 && SumTo(LONGEST, 4) == 77;
    assert SumTo(SHORTEST, 5) == 159 && SumTo(LONGEST, 5) == 215;
    assert SumTo(SHORTEST, 6) == 414 && SumTo(LONGEST, 6) == 560;
  }

  /** A message job with its 8 attempts waits between 1179 and 1595 seconds in all, a bulk
      job with its 5 attempts between 57 and 77, and no narrower interval will do. */
  lemma TotalWait(draws: seq<real>)
    requires forall i | 0 <= i < |draws| :: Random(draws[i])
    ensures |draws| == 7 ==> 1179 <= Waited(draws) <= 1595
    ensures |draws| == 4 ==> 57 <= Waited(draws) <= 77
    ensures Waited(seq(7, _ => 0.0)) == 1179 && Waited(seq(7, _ => 0.9999)) == 1595
    ensures Waited(seq(4, _ => 0.0)) == 57 && Waited(seq(4, _ => 0.9999)) == 77
  {
    TableSums();
    if |draws| == 7 || |draws| == 4 { WaitedBounds(draws); }
    ConstantDraws(7);
    ConstantDraws(4);
  }

  lemma {:induction false} ConstantDraws(n: nat)
    requires n <= |RETRY_BACKOFF_SECONDS|
    ensures Waited(seq(n, _ => 0.0)) == SumTo(SHORTEST, n)
    ensures Waited(seq(n, _ => 0.9999)) == SumTo(LONGEST, n)
  {
    hide Delay;
    if n > 0 {
      ConstantDraws(n - 1);
      BoundsAreReached(n);
      assert seq(n, _ => 0.0)[..n - 1] == seq(n - 1, _ => 0.0);
      assert seq(n, _ => 0.9999)[..n - 1] == seq(n - 1, _ => 0.9999);
    }
  }
}
