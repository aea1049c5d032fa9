/** The breaker bound for the gate itself: how often serial checks ask an API that never answers. */
module DeadApi {
  import opened Records
  import opened CircuitBreaker
  import BreakerBound
  import opened Gate

  /** No check of the run succeeds: the API gives no score, or the score cannot be stored. */
  predicate Fruitless(op: Op) {
    op.Check? ==> op.answer.NoAnswer? || op.faults.write
  }

  /** How many API calls the run makes no later than `deadline`. */
  function AskedBy(config: Config, s: State, ops: seq<Op>, deadline: Instant): nat
    decreases |ops|
  {
    if ops == [] then 0
    else
      var o := Step(config, s, ops[0]);
      (if o.asked && ops[0].now <= deadline then 1 else 0) + AskedBy(config, o.state, ops[1..], deadline)
  }

  /** A fruitless step asks only when the breaker lets it, and then records a failure. */
  lemma StepMovesBreaker(config: Config, s: State, op: Op)
    requires Fruitless(op)
    ensures var o := Step(config, s, op);
            if o.asked then op.Check? && Allows(s.breaker, config.limits, op.now) && o.state.breaker == Failed(s.breaker, op.done)
            else o.state.breaker == s.breaker
  {
  }

  lemma {:induction false} NothingAfter(config: Config, s: State, ops: seq<Op>, clock: Instant, deadline: Instant)
    requires Ordered(ops, clock) && deadline < clock
    ensures AskedBy(config, s, ops, deadline) == 0
    decreases |ops|
  {
    if ops == [] {
    } else {
      NothingAfter(config, Step(config, s, ops[0]).state, ops[1..], ops[0].End(), deadline);
    }
  }

  lemma {:induction false} RunIsBounded(config: Config, begin: Instant, s: State, admitted: nat, ops: seq<Op>, clock: Instant, elapsed: nat)
    requires config.limits.coolDown > 0
    requires Ordered(ops, clock) && clock <= begin + elapsed && forall op :: op in ops ==> Fruitless(op)
    requires BreakerBound.Inv(config.limits, 1, begin, BreakerBound.State(s.breaker, 0, admitted, clock))
    ensures admitted + AskedBy(config, s, ops, begin + elapsed) <= BreakerBound.Bound(config.limits, 1, elapsed)
    decreases |ops|
  {
    var deadline := begin + elapsed;
    BreakerBound.BoundGrows(config.limits, 1, clock - begin, elapsed);
    if ops == [] {
    } else {
      var op, o := ops[0], Step(config, s, ops[0]);
      assert op in ops && forall x :: x in ops[1..] ==> x in ops;
      StepMovesBreaker(config, s, op);
      if op.now > deadline {
        NothingAfter(config, o.state, ops[1..], op.End(), deadline);
      } else if o.asked {
        var before := BreakerBound.State(s.breaker, 0, admitted, clock);
        var waiting := BreakerBound.Next(before, BreakerBound.Admit(op.now));
        BreakerBound.StepKeepsInv(config.limits, 1, begin, before, BreakerBound.Admit(op.now));
        BreakerBound.BoundGrows(config.limits, 1, op.now - begin, elapsed);
        BreakerBound.StepKeepsInv(config.limits, 1, begin, waiting, BreakerBound.Fail(op.done));
        if op.done > deadline {
          NothingAfter(config, o.state, ops[1..], op.done, deadline);
        } else {
          RunIsBounded(config, begin, o.state, admitted + 1, ops[1..], op.done, elapsed);
        }
      } else if op.End() > deadline {
        NothingAfter(config, o.state, ops[1..], op.End(), deadline);
      } else {
        BreakerBound.BoundGrows(config.limits, 1, clock - begin, op.End() - begin);
        RunIsBounded(config, begin, o.state, admitted, ops[1..], op.End(), elapsed);
      }
    }
  }

  /**
   * Serial checks against a dead API, among any reports and cleanups: from a fresh breaker at most
   * M + floor(T / C) calls go out in the first T time units, whatever the stores hold.
   */
  lemma DeadApiIsAskedRarely(config: Config, s: State, ops: seq<Op>, begin: Instant, elapsed: nat)
    requires config.limits.coolDown > 0 && config.limits.maxRetries >= 1 && s.breaker == FRESH
    requires Ordered(ops, begin) && forall op :: op in ops ==> Fruitless(op)
    ensures AskedBy(config, s, ops, begin + elapsed) <= config.limits.maxRetries + elapsed / config.limits.coolDown
  {
    BreakerBound.BoundGrows(config.limits, 1, 0, 0);
    RunIsBounded(config, begin, s, 0, ops, begin, elapsed);
  }
}
