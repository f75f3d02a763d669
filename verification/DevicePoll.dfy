/** Polling for a device token (section 3.5 of RFC 8628), against every sequence of server
    answers and every timing of requests and sleeps. */
module DevicePoll {
  import opened Wrappers

  const SECOND := 1_000_000_000

  /** A token, a transport or server failure, or an OAuth error code. */
  datatype Answer = Token(token: string) | Failure(reason: string) | OAuthError(code: string)

  /** When a request began, and the seconds waited after it. */
  datatype Request = Request(at: int, wait: int)

  /** The environment: the k-th answer, how long its request took, how much too long the k-th
      sleep was. */
  datatype World = World(answers: nat -> Answer, took: nat -> nat, overslept: nat -> nat)

  function Base(interval: int): (base: int)
    ensures base > 0
  {
    if interval <= 0 then 5 else interval
  }

  function Lifetime(expiresIn: int): (lifetime: int)
    ensures lifetime > 0
  {
    if expiresIn <= 0 then 15 * 60 else expiresIn
  }

  predicate KeepsPolling(a: Answer) {
    a == OAuthError("authorization_pending") || a == OAuthError("slow_down")
  }

  /** How many of the first n answers asked to slow down. */
  function SlowDowns(answers: nat -> Answer, n: nat): nat {
    if n == 0 then 0 else SlowDowns(answers, n - 1) + if answers(n - 1) == OAuthError("slow_down") then 1 else 0
  }

  function Verdict(a: Answer): Result<string>
    requires !KeepsPolling(a)
  {
    match a
    case Token(t) => Ok(t)
    case Failure(reason) => Err(reason)
    case OAuthError(code) =>
      if code == "expired_token" then Err("device code expired; run `runfabric login` again")
      else if code == "access_denied" then Err("login denied by user")
      else Err("device token error: " + code)
  }

  /** Only a token is a success, and it is handed on; section 3.5 names the two answers on which
      polling goes on, and the reason is given for any other. */
  lemma VerdictTells(a: Answer)
    ensures KeepsPolling(a) <==> a.OAuthError? && (a.code == "authorization_pending" || a.code == "slow_down")
    ensures !KeepsPolling(a) ==> (Verdict(a).Ok? <==> a.Token?) && (a.Token? ==> Verdict(a).value == a.token)
    ensures a.Failure? ==> Verdict(a) == Err(a.reason)
  {
  }

  /** Section 3.2 leaves the interval at 5 seconds if none is given; the lifetime is then a
      quarter of an hour. */
  lemma Defaults(interval: int, expiresIn: int)
    ensures interval > 0 ==> Base(interval) == interval
    ensures interval <= 0 ==> Base(interval) == 5
    ensures expiresIn > 0 ==> Lifetime(expiresIn) == expiresIn
    ensures expiresIn <= 0 ==> Lifetime(expiresIn) == 900
  {
  }

  /** The earliest time of the k-th request. */
  function Due(start: int, k: int, interval: int): int {
    start + k * interval * SECOND
  }

  lemma DueNext(start: int, k: int, interval: int)
    ensures Due(start, k + 1, interval) == Due(start, k, interval) + interval * SECOND
  {
    assert (k + 1) * interval * SECOND == k * interval * SECOND + interval * SECOND;
  }

  function After(at: int, wait: int): int {
    at + wait * SECOND
  }

  /** The k-th request: at its due time or later but not past the deadline; followed by the base
      interval plus five seconds for every slow_down up to then. */
  ghost predicate Regular(request: Request, k: nat, world: World, start: int, interval: int, deadline: int) {
    && Due(start, k, Base(interval)) <= request.at <= deadline
    && KeepsPolling(world.answers(k))
    && request.wait == Base(interval) + 5 * SlowDowns(world.answers, k + 1)
  }

  /** Each request comes no sooner than the wait of the one before allows. */
  predicate Spaced(log: seq<Request>) {
    var n := |log|;
    n <= 1 || (Spaced(log[..n - 1]) && After(log[n - 2].at, log[n - 2].wait) <= log[n - 1].at)
  }

  /** The requests followed by another round: each regular, the next no sooner than its wait
      allows. */
  ghost predicate Follows(log: seq<Request>, world: World, start: int, now: int, interval: int, deadline: int) {
    && (forall k | 0 <= k < |log| :: Regular(log[k], k, world, start, interval, deadline))
    && Spaced(log)
    && (log != [] ==> After(log[|log| - 1].at, log[|log| - 1].wait) <= now)
    && Due(start, |log|, Base(interval)) <= now
  }

  /** No answer ends the polling, and requests and sleeps take no longer than they must. */
  ghost predicate Prompt(world: World) {
    forall k: nat :: world.answers(k) == OAuthError("authorization_pending") && world.took(k) == 0 && world.overslept(k) == 0
  }

  lemma RequestsFit(requests: nat, start: int, now: int, interval: int, lifetime: int)
    requires interval > 0 && Due(start, requests, interval) <= now <= start + lifetime * SECOND
    ensures requests + 1 <= lifetime / interval + 1
  {
    assert requests * interval <= lifetime;
    QuotientAtLeast(requests, interval, lifetime);
  }

  lemma QuotientAtLeast(q: nat, d: int, n: int)
    requires d > 0
    ensures q * d <= n <==> q <= n / d
  {
    assert n == n / d * d + n % d;
    if q <= n / d {
      assert q * d <= n / d * d;
    } else {
      assert (n / d + 1) * d <= q * d;
    }
  }

  lemma DueAfterWait(k: nat, world: World, start: int, now: int, interval: int, deadline: int, wait: int)
    requires Due(start, k, Base(interval)) <= now <= deadline
    requires KeepsPolling(world.answers(k)) && wait == Base(interval) + 5 * SlowDowns(world.answers, k + 1)
    ensures Regular(Request(now, wait), k, world, start, interval, deadline)
    ensures Due(start, k + 1, Base(interval)) <= After(now, wait)
  {
    DueNext(start, k, Base(interval));
    assert Base(interval) * SECOND <= wait * SECOND;
    hide Due, SlowDowns, Base, KeepsPolling;
  }

  lemma OneMore(log: seq<Request>, world: World, start: int, now: int, later: int, interval: int, deadline: int, wait: int)
    requires Follows(log, world, start, now, interval, deadline) && now <= deadline
    requires KeepsPolling(world.answers(|log|)) && wait == Base(interval) + 5 * SlowDowns(world.answers, |log| + 1)
    requires After(now, wait) <= later
    ensures Follows(log + [Request(now, wait)], world, start, later, interval, deadline)
  {
    hide Due, SlowDowns, After, Base, KeepsPolling, Regular, Spaced;
    DueAfterWait(|log|, world, start, now, interval, deadline, wait);
    SpacedAppended(log, Request(now, wait));
  }

  lemma SpacedAppended(log: seq<Request>, next: Request)
    requires Spaced(log) && (log != [] ==> After(log[|log| - 1].at, log[|log| - 1].wait) <= next.at)
    ensures Spaced(log + [next])
  {
    hide After;
    assert (log + [next])[..|log|] == log;
  }

  /** The polling loop. `log` holds the requests that were followed by another round; if an
      answer ended the polling, its request came on top. */
  method PollDeviceToken(interval: int, expiresIn: int, start: int, world: World)
    returns (result: Result<string>, requests: nat, ghost log: seq<Request>, ghost now: int)
    ensures Follows(log, world, start, now, interval, start + Lifetime(expiresIn) * SECOND)
    ensures requests == |log| || requests == |log| + 1
    ensures requests == |log| ==> now > start + Lifetime(expiresIn) * SECOND && result == Err("device authorization timed out")
    ensures requests == |log| + 1 ==>
              now <= start + Lifetime(expiresIn) * SECOND && !KeepsPolling(world.answers(|log|)) && result == Verdict(world.answers(|log|))
    ensures requests <= Lifetime(expiresIn) / Base(interval) + 1
    ensures Prompt(world) ==> requests == Lifetime(expiresIn) / Base(interval) + 1
  {
    var wait := Base(interval);
    var clock := start;
    var deadline := clock + Lifetime(expiresIn) * SECOND;
    requests, log, now := 0, [], clock;
    assert Lifetime(expiresIn) / Base(interval) >= 0;
    hide Base, Lifetime, KeepsPolling, Due, Verdict;
    while true
      invariant requests == |log| && now == clock && wait == Base(interval) + 5 * SlowDowns(world.answers, requests)
      invariant Follows(log, world, start, clock, interval, deadline)
      invariant requests <= Lifetime(expiresIn) / Base(interval) + 1
      invariant Prompt(world) ==> clock == Due(start, requests, Base(interval)) && wait == Base(interval)
      decreases deadline - clock
    {
      if clock > deadline {
        PromptCount(requests, start, clock, Base(interval), Lifetime(expiresIn));
        return Err("device authorization timed out"), requests, log, now;
      }
      RequestsFit(requests, start, clock, Base(interval), Lifetime(expiresIn));
      var answer := world.answers(requests);
      if !KeepsPolling(answer) {
        NotPrompt(world, requests);
        return Verdict(answer), requests + 1, log, now;
      }
      if answer == OAuthError("slow_down") {
        wait := wait + 5;
      }
      var later := After(clock, wait) + world.took(requests) + world.overslept(requests);
      OneMore(log, world, start, clock, later, interval, deadline, wait);
      DueNext(start, requests, Base(interval));
      log := log + [Request(clock, wait)];
      clock, requests := later, requests + 1;
      now := clock;
    }
  }

  lemma NotPrompt(world: World, k: nat)
    requires !KeepsPolling(world.answers(k))
    ensures !Prompt(world)
  {
  }

  /** If every request came at its earliest and the deadline has passed, the bound is met. */
  lemma PromptCount(requests: nat, start: int, now: int, interval: int, lifetime: int)
    requires interval > 0 && now > start + lifetime * SECOND
    ensures now == Due(start, requests, interval) ==> requests >= lifetime / interval + 1
  {
    if now == Due(start, requests, interval) {
      assert !(requests * interval <= lifetime);
      QuotientAtLeast(requests, interval, lifetime);
    }
  }
}
