/**
 * The circuit breaker in front of the external API: a failure counter and the instant of the last
 * failure, two fields of the threat source under one mutex.
 */
module CircuitBreaker {
  import opened Records

  datatype Limits = Limits(maxRetries: int, coolDown: int)

  datatype Breaker = Breaker(failures: nat, lastFailed: Instant)

  const FRESH := Breaker(0, ZERO_TIME)

  /** `allowRequest`: closed below `maxRetries` failures, half-open once the cool-down has passed. */
  predicate Allows(b: Breaker, limits: Limits, now: Instant) {
    b.failures >= limits.maxRetries ==> now - b.lastFailed >= limits.coolDown
  }

  /** `recordSuccess` leaves `cbLastFailed` alone. */
  function Succeeded(b: Breaker): Breaker {
    b.(failures := 0)
  }

  /** `recordFailure`. */
  function Failed(b: Breaker, now: Instant): Breaker {
    Breaker(b.failures + 1, now)
  }

  // ---------- what the two fields remember ----------

  datatype Recorded = Success | Failure(at: Instant)

  function After(history: seq<Recorded>): Breaker {
    if history == [] then FRESH
    else
      var before := After(history[..|history| - 1]);
      match history[|history| - 1]
      case Success => Succeeded(before)
      case Failure(at) => Failed(before, at)
  }

  /** The number of failures since the last success. */
  ghost predicate StreakIs(history: seq<Recorded>, n: nat) {
    && n <= |history|
    && (forall i :: |history| - n <= i < |history| ==> history[i].Failure?)
    && (n < |history| ==> history[|history| - n - 1].Success?)
  }

  /**
   * The breaker refuses exactly when the last `maxRetries` outcomes, or more, were all failures and
   * the cool-down since the latest of them has not passed; a single success closes it again.
   */
  lemma {:induction false} BreakerRemembersStreak(history: seq<Recorded>, limits: Limits, now: Instant)
    ensures StreakIs(history, After(history).failures)
    ensures Allows(After(history), limits, now)
       <==> After(history).failures < limits.maxRetries || After(history).lastFailed + limits.coolDown <= now
    ensures forall i :: 0 <= i < |history| && history[i].Failure? && (forall j :: i < j < |history| ==> history[j].Success?)
              ==> After(history).lastFailed == history[i].at
    ensures (forall i :: 0 <= i < |history| ==> history[i].Success?) ==> After(history).lastFailed == ZERO_TIME
    ensures limits.maxRetries > 0 ==>
              (!Allows(After(history), limits, now) <==>
                 && limits.maxRetries <= |history|
                 && (forall i :: |history| - limits.maxRetries <= i < |history| ==> history[i].Failure?)
                 && now - history[|history| - 1].at < limits.coolDown)
  {
    if history == [] {
    } else {
      var before := history[..|history| - 1];
      BreakerRemembersStreak(before, limits, now);
      assert forall i :: 0 <= i < |before| ==> history[i] == before[i];
    }
  }
}
