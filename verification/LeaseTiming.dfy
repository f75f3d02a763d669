/** Lease arithmetic: the renewal cadence, and what is left of a lease once its
    expiry has been printed without its fractional second.
    Instants and durations are integer nanoseconds. */
module LeaseTiming {

  const SECOND: int := 1_000_000_000

  /** A third of the lease, but never less than a second. Go division truncates. */
  function DefaultInterval(ttl: int): (interval: int)
    ensures interval >= SECOND
    ensures ttl >= 3 * SECOND ==> 3 * interval <= ttl < 3 * interval + 3
    ensures ttl <= 3 * SECOND ==> interval == SECOND
  {
    var third := if ttl >= 0 then ttl / 3 else -(-ttl / 3);
    if third < SECOND then SECOND else third
  }

  /** An instant as RFC 3339 prints it: whole seconds, rounded down. */
  function WholeSeconds(t: int): int {
    t / SECOND
  }

  /** The lease stamped at `stamp` for `ttl` is still ahead of `now` once stored. */
  predicate Ahead(stamp: int, ttl: int, now: int) {
    now < SECOND * WholeSeconds(stamp + ttl)
  }

  predicate WithinTwoIntervals(stamp: int, ttl: int, now: int) {
    stamp <= now <= stamp + 2 * DefaultInterval(ttl)
  }

  /** Two renewal intervals fit in a lease less a second exactly above three seconds. */
  lemma TwoIntervalsFitIff(ttl: int)
    ensures 2 * DefaultInterval(ttl) < ttl - SECOND <==> ttl > 3 * SECOND
  {
    assert ttl >= 3 * SECOND || DefaultInterval(ttl) == SECOND;
  }

  /** One missed renewal never lets a stored lease lapse, whatever the phase of the
      clock within its second, exactly when the lease is at least three seconds. */
  lemma OneMissIsHarmlessIff(ttl: int)
    ensures (forall stamp, now | WithinTwoIntervals(stamp, ttl, now) :: Ahead(stamp, ttl, now))
       <==> ttl >= 3 * SECOND
  {
    if ttl < 3 * SECOND {
      var stamp := SECOND - 1 - ttl;
      assert WithinTwoIntervals(stamp, ttl, stamp + 2 * SECOND);
      assert !Ahead(stamp, ttl, stamp + 2 * SECOND);
    }
  }

  /** What is left of a lease, rounding included, after two intervals. */
  function Slack(ttl: int): int {
    ttl - SECOND - 2 * DefaultInterval(ttl)
  }

  /** One missed renewal, and a next one that is `latency` late in taking effect, never let a
      stored lease lapse exactly when the latency is within the slack. */
  lemma LateRenewalIsHarmlessIff(ttl: int, latency: nat)
    ensures (forall stamp, now | stamp <= now <= stamp + 2 * DefaultInterval(ttl) + latency :: Ahead(stamp, ttl, now))
       <==> latency <= Slack(ttl)
  {
    if latency > Slack(ttl) {
      var stamp := SECOND - 1 - ttl;
      var now := stamp + 2 * DefaultInterval(ttl) + latency;
      assert WholeSeconds(stamp + ttl) == 0;
      assert !Ahead(stamp, ttl, if now < 0 then 0 else now);
    }
  }

  predicate NeverTwoMisses(hits: seq<bool>) {
    forall j | 0 < j < |hits| :: hits[j - 1] || hits[j]
  }

  /** Ticks at most one interval apart, the first being the acquisition. */
  predicate AtCadence(ticks: seq<int>, hits: seq<bool>, ttl: int) {
    && |ticks| == |hits| > 0 && hits[0] && NeverTwoMisses(hits)
    && forall k | 0 < k < |ticks| :: ticks[k - 1] <= ticks[k] <= ticks[k - 1] + DefaultInterval(ttl)
  }

  /** Up to the end of the last interval, a moment comes at most two intervals and the latency
      after some tick that hit and, by then, has taken effect. */
  lemma {:induction false} RecentHit(ticks: seq<int>, hits: seq<bool>, ttl: int, latency: nat, now: int) returns (k: nat)
    requires AtCadence(ticks, hits, ttl)
    requires now <= ticks[|ticks| - 1] + DefaultInterval(ttl) + latency
    ensures k < |ticks| && hits[k] && (k > 0 ==> ticks[k] + latency < now)
    ensures now <= ticks[k] + 2 * DefaultInterval(ttl) + latency
  {
    var n := |ticks| - 1;
    if n == 0 {
      k := 0;
    } else if ticks[n] + latency < now {
      k := if hits[n] then n else n - 1;
    } else {
      k := RecentHit(ticks[..n], hits[..n], ttl, latency, now);
    }
  }
}
