/**
 * How often a dead API is still asked: a bound over every run in which each answer is a failure,
 * and a run that meets it.
 */
module BreakerBound {
  import opened Records
  import opened CircuitBreaker

  datatype Step = Admit(at: Instant) | Fail(at: Instant)

  datatype State = State(breaker: Breaker, inFlight: nat, admitted: nat, clock: Instant)

  ghost predicate Enabled(limits: Limits, parallel: nat, s: State, step: Step) {
    && s.clock <= step.at
    && match step
       case Admit(at) => Allows(s.breaker, limits, at) && s.inFlight < parallel
       case Fail(_) => s.inFlight > 0
  }

  ghost function Next(s: State, step: Step): State
    requires step.Fail? ==> s.inFlight > 0
  {
    match step
    case Admit(at) => State(s.breaker, s.inFlight + 1, s.admitted + 1, at)
    case Fail(at) => State(Failed(s.breaker, at), s.inFlight - 1, s.admitted, at)
  }

  ghost predicate Legal(limits: Limits, parallel: nat, s: State, steps: seq<Step>)
    decreases |steps|
  {
    steps == [] ||
    (Enabled(limits, parallel, s, steps[0]) && Legal(limits, parallel, Next(s, steps[0]), steps[1..]))
  }

  ghost function Final(limits: Limits, parallel: nat, s: State, steps: seq<Step>): State
    requires Legal(limits, parallel, s, steps)
    decreases |steps|
  {
    if steps == [] then s else Final(limits, parallel, Next(s, steps[0]), steps[1..])
  }

  /** How many requests the run lets through no later than `deadline`. */
  ghost function AdmittedBy(steps: seq<Step>, deadline: Instant): nat {
    if steps == [] then 0
    else (if steps[0].Admit? && steps[0].at <= deadline then 1 else 0) + AdmittedBy(steps[1..], deadline)
  }

  ghost function Start(begin: Instant): State {
    State(FRESH, 0, 0, begin)
  }

  function AtLeastOne(n: int): nat {
    if n < 1 then 1 else n
  }

  /** The most requests a dead API sees in the first `elapsed` time units. */
  ghost function Bound(limits: Limits, parallel: nat, elapsed: nat): nat
    requires limits.coolDown > 0
  {
    AtLeastOne(limits.maxRetries) - 1 + parallel + parallel * (elapsed / limits.coolDown)
  }

  lemma BoundGrows(limits: Limits, parallel: nat, a: nat, b: nat)
    requires limits.coolDown > 0 && a <= b
    ensures Bound(limits, parallel, a) <= Bound(limits, parallel, b)
    ensures a + limits.coolDown <= b ==> Bound(limits, parallel, a) + parallel <= Bound(limits, parallel, b)
  {
    var c := limits.coolDown;
    var x, y := a / c, b / c;
    QuotientGrows(a, b, c);
    ProductGrows(parallel, x, y);
    if a + c <= b {
      QuotientGrows(a + c, b, c);
      QuotientStep(a, c);
      ProductGrows(parallel, x + 1, y);
      ProductStep(parallel, x);
    }
  }

  lemma QuotientStep(a: nat, c: nat)
    requires c > 0
    ensures a / c + 1 <= (a + c) / c
  {
    var x, q := a / c, (a + c) / c;
    assert a == c * x + a % c && a + c == c * q + (a + c) % c;
    if q <= x {
      ProductGrows(c, q, x);
    }
  }

  lemma ProductStep(k: nat, x: nat)
    ensures k * (x + 1) == k * x + k
  {
  }

  lemma QuotientGrows(a: nat, b: nat, c: nat)
    requires c > 0 && a <= b
    ensures a / c <= b / c
  {
    var x, y := a / c, b / c;
    assert a == c * x + a % c && b == c * y + b % c;
    if y + 1 <= x {
      ProductGrows(c, y + 1, x);
    }
  }

  lemma ProductGrows(k: nat, x: nat, y: nat)
    requires x <= y
    ensures k * x <= k * y
  {
    assert k * y == k * x + k * (y - x);
  }

  /**
   * Every admitted request has failed or is in flight, the total respects the bound now, and the
   * failures respected it when the last one was recorded.
   */
  ghost predicate Inv(limits: Limits, parallel: nat, begin: Instant, s: State)
    requires limits.coolDown > 0
  {
    && begin <= s.clock
    && s.admitted == s.breaker.failures + s.inFlight
    && s.inFlight <= parallel
    && s.admitted <= Bound(limits, parallel, s.clock - begin)
    && (s.breaker.failures > 0 ==>
          && begin <= s.breaker.lastFailed <= s.clock
          && s.breaker.failures <= Bound(limits, parallel, s.breaker.lastFailed - begin))
  }

  lemma StepKeepsInv(limits: Limits, parallel: nat, begin: Instant, s: State, step: Step)
    requires limits.coolDown > 0
    requires Inv(limits, parallel, begin, s) && Enabled(limits, parallel, s, step)
    ensures Inv(limits, parallel, begin, Next(s, step))
  {
    BoundGrows(limits, parallel, s.clock - begin, step.at - begin);
    if step.Admit? && s.breaker.failures > 0 && s.breaker.failures >= limits.maxRetries {
      BoundGrows(limits, parallel, s.breaker.lastFailed - begin, step.at - begin);
    }
    ProductGrows(parallel, 0, (step.at - begin) / limits.coolDown);
  }

  lemma {:induction false} RunIsBounded(limits: Limits, parallel: nat, begin: Instant, s: State, steps: seq<Step>, elapsed: nat)
    requires limits.coolDown > 0
    requires Inv(limits, parallel, begin, s) && Legal(limits, parallel, s, steps)
    requires s.clock <= begin + elapsed
    ensures s.admitted + AdmittedBy(steps, begin + elapsed) <= Bound(limits, parallel, elapsed)
    decreases |steps|
  {
    if steps == [] {
      BoundGrows(limits, parallel, s.clock - begin, elapsed);
    } else if steps[0].at <= begin + elapsed {
      StepKeepsInv(limits, parallel, begin, s, steps[0]);
      RunIsBounded(limits, parallel, begin, Next(s, steps[0]), steps[1..], elapsed);
    } else {
      BoundGrows(limits, parallel, s.clock - begin, elapsed);
      NothingInThePast(limits, parallel, s, steps, begin + elapsed);
    }
  }

  lemma {:induction false} NothingInThePast(limits: Limits, parallel: nat, s: State, steps: seq<Step>, deadline: Instant)
    requires Legal(limits, parallel, s, steps)
    requires steps == [] || deadline < steps[0].at
    ensures AdmittedBy(steps, deadline) == 0
    decreases |steps|
  {
    if |steps| > 1 {
      NothingInThePast(limits, parallel, Next(s, steps[0]), steps[1..], deadline);
    }
  }

  /**
   * With at most `parallel` checks in flight and no success, a fresh breaker lets at most
   * (M - 1 + K) + K * floor(T / C) requests through in the first T time units.
   */
  lemma BreakerBound(limits: Limits, parallel: nat, begin: Instant, steps: seq<Step>, elapsed: nat)
    requires limits.coolDown > 0
    requires Legal(limits, parallel, Start(begin), steps)
    ensures AdmittedBy(steps, begin + elapsed) <= Bound(limits, parallel, elapsed)
  {
    BoundGrows(limits, parallel, 0, 0);
    RunIsBounded(limits, parallel, begin, Start(begin), steps, elapsed);
  }

  // ---------- the bound is met ----------

  ghost function Repeat(step: Step, n: nat): seq<Step> {
    seq(n, _ => step)
  }

  lemma {:induction false} LegalAppend(limits: Limits, parallel: nat, s: State, a: seq<Step>, b: seq<Step>, deadline: Instant)
    requires Legal(limits, parallel, s, a) && Legal(limits, parallel, Final(limits, parallel, s, a), b)
    ensures Legal(limits, parallel, s, a + b)
    ensures Final(limits, parallel, s, a + b) == Final(limits, parallel, Final(limits, parallel, s, a), b)
    ensures AdmittedBy(a + b, deadline) == AdmittedBy(a, deadline) + AdmittedBy(b, deadline)
    decreases |a|
  {
    if a == [] {
      assert a + b == b;
    } else {
      assert (a + b)[1..] == a[1..] + b;
      LegalAppend(limits, parallel, Next(s, a[0]), a[1..], b, deadline);
    }
  }

  lemma {:induction false} Admits(limits: Limits, parallel: nat, s: State, n: nat, at: Instant, deadline: Instant)
    requires s.clock <= at <= deadline && s.inFlight + n <= parallel && Allows(s.breaker, limits, at)
    ensures var steps := Repeat(Admit(at), n);
            && Legal(limits, parallel, s, steps)
            && Final(limits, parallel, s, steps)
               == State(s.breaker, s.inFlight + n, s.admitted + n, if n == 0 then s.clock else at)
            && AdmittedBy(steps, deadline) == n
    decreases n
  {
    if n > 0 {
      assert Repeat(Admit(at), n)[1..] == Repeat(Admit(at), n - 1);
      Admits(limits, parallel, Next(s, Admit(at)), n - 1, at, deadline);
    }
  }

  lemma {:induction false} Fails(limits: Limits, parallel: nat, s: State, at: Instant, deadline: Instant)
    requires s.clock <= at
    ensures var steps := Repeat(Fail(at), s.inFlight);
            && Legal(limits, parallel, s, steps)
            && (s.inFlight > 0 ==>
                  Final(limits, parallel, s, steps)
                  == State(Breaker(s.breaker.failures + s.inFlight, at), 0, s.admitted, at))
            && AdmittedBy(steps, deadline) == 0
    decreases s.inFlight
  {
    if s.inFlight > 0 {
      assert Repeat(Fail(at), s.inFlight)[1..] == Repeat(Fail(at), s.inFlight - 1);
      Fails(limits, parallel, Next(s, Fail(at)), at, deadline);
    }
  }

  /** `n` requests go out together and all fail at once. */
  lemma Burst(limits: Limits, parallel: nat, s: State, n: nat, at: Instant, deadline: Instant) returns (steps: seq<Step>)
    requires s.inFlight == 0 && 0 < n <= parallel && s.clock <= at <= deadline && Allows(s.breaker, limits, at)
    ensures Legal(limits, parallel, s, steps)
    ensures Final(limits, parallel, s, steps) == State(Breaker(s.breaker.failures + n, at), 0, s.admitted + n, at)
    ensures AdmittedBy(steps, deadline) == n
  {
    Admits(limits, parallel, s, n, at, deadline);
    var busy := Final(limits, parallel, s, Repeat(Admit(at), n));
    Fails(limits, parallel, busy, at, deadline);
    LegalAppend(limits, parallel, s, Repeat(Admit(at), n), Repeat(Fail(at), n), deadline);
    steps := Repeat(Admit(at), n) + Repeat(Fail(at), n);
  }

  /** The opening: M - 1 single failures, then a full burst, all at the first instant. */
  lemma {:induction false} Opening(limits: Limits, parallel: nat, begin: Instant, singles: nat, deadline: Instant)
    returns (steps: seq<Step>)
    requires parallel > 0 && singles < limits.maxRetries && begin <= deadline
    ensures Legal(limits, parallel, Start(begin), steps)
    ensures AdmittedBy(steps, deadline) == singles
    ensures var s := Final(limits, parallel, Start(begin), steps);
            s.breaker.failures == singles && s.inFlight == 0 && s.clock == begin
  {
    if singles == 0 {
      steps := [];
    } else {
      var before := Opening(limits, parallel, begin, singles - 1, deadline);
      var s := Final(limits, parallel, Start(begin), before);
      var one := Burst(limits, parallel, s, 1, begin, deadline);
      LegalAppend(limits, parallel, Start(begin), before, one, deadline);
      steps := before + one;
    }
  }

  /** One more burst after each cool-down. */
  lemma {:induction false} Bursts(limits: Limits, parallel: nat, begin: Instant, rounds: nat, deadline: Instant)
    returns (steps: seq<Step>)
    requires limits.coolDown > 0 && limits.maxRetries >= 1 && parallel > 0
    requires begin + limits.coolDown * rounds <= deadline
    ensures Legal(limits, parallel, Start(begin), steps)
    ensures AdmittedBy(steps, deadline) == limits.maxRetries - 1 + parallel + parallel * rounds
    ensures var s := Final(limits, parallel, Start(begin), steps);
            s.inFlight == 0 && s.clock == s.breaker.lastFailed == begin + limits.coolDown * rounds
  {
    var before: seq<Step>;
    var at := begin + limits.coolDown * rounds;
    if rounds == 0 {
      before := Opening(limits, parallel, begin, limits.maxRetries - 1, deadline);
    } else {
      assert at == begin + limits.coolDown * (rounds - 1) + limits.coolDown;
      before := Bursts(limits, parallel, begin, rounds - 1, deadline);
      assert parallel * rounds == parallel * (rounds - 1) + parallel;
    }
    var s := Final(limits, parallel, Start(begin), before);
    var burst := Burst(limits, parallel, s, parallel, at, deadline);
    LegalAppend(limits, parallel, Start(begin), before, burst, deadline);
    steps := before + burst;
  }

  /** No smaller bound holds: some run lets exactly that many requests through. */
  lemma BreakerBoundIsTight(limits: Limits, parallel: nat, begin: Instant, elapsed: nat) returns (steps: seq<Step>)
    requires limits.coolDown > 0 && limits.maxRetries >= 1 && parallel > 0
    ensures Legal(limits, parallel, Start(begin), steps)
    ensures AdmittedBy(steps, begin + elapsed) == Bound(limits, parallel, elapsed)
  {
    var rounds := elapsed / limits.coolDown;
    assert elapsed == limits.coolDown * rounds + elapsed % limits.coolDown;
    steps := Bursts(limits, parallel, begin, rounds, begin + elapsed);
  }
}
