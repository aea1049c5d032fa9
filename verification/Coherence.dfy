/**
 * Whole operations, the two stores and the gauges. Every L1 entry has the identical row in L2, as long
 * as the cleanup worker stays off exact expiry instants, because the two sweeps treat such an instant
 * differently. The gauges count the table exactly as long as every operation counts right; off those
 * instants only a failed read can make one count wrong.
 */
module Coherence {
  import opened Records
  import opened Recency
  import opened Table
  import opened CircuitBreaker
  import opened Gate

  /** Every L1 entry is backed by the identical row. */
  ghost predicate Backed(l1: seq<Entry>, l2: Rows) {
    forall ip :: Find(l1, ip).Some? ==> ip in l2 && l2[ip] == Find(l1, ip).value
  }

  ghost predicate Coherent(s: State) {
    Distinct(s.l1) && Stored(s.l2) && Backed(s.l1, s.l2)
  }

  ghost predicate Counted(s: State) {
    s.gauges == Gauges(|s.l2|, |ThreatRows(s.l2)|)
  }

  /** No cleanup that deletes rows falls on the exact expiry instant of a record it finds in L1. */
  ghost predicate OffExpiry(s: State, op: Op) {
    op.Cleanup? && !op.faults.delete ==>
      forall ip :: Find(s.l1, ip).Some? ==> Find(s.l1, ip).value.expiresAt != op.now
  }

  /** The reads behind the gauge arithmetic succeed; deletes and writes may fail. */
  predicate GaugeReadsSucceed(op: Op) {
    && (op.Check? || op.ReportThreat? ==> !op.faults.existing)
    && (op.Cleanup? ==> !op.faults.count && !op.faults.threatCount)
  }

  /** A check that drops an expired L1 entry adjusts the gauges for the row of that entry, and there is one. */
  predicate ForgetsARow(s: State, ip: IP) {
    Find(s.l1, ip).Some? && ip in s.l2 && (Find(s.l1, ip).value.status == Threat <==> s.l2[ip].status == Threat)
  }

  /**
   * When the operation's gauge arithmetic is right. A check that drops an expired L1 entry and deletes
   * its row must find a row of the same status; otherwise a failed read of the old row, which the
   * program takes for "no row", must not precede a write over a row; and a failed recount must not
   * follow the deletion of what it would have counted.
   */
  ghost predicate CountsRight(config: Config, s: State, op: Op) {
    match op
    case Check(ip, now, _, answer, faults) =>
      if Find(s.l1, ip).Some? && Find(s.l1, ip).value.Expired(now) && !faults.delete then ForgetsARow(s, ip)
      else faults.existing && ip in s.l2 ==> !(Step(config, s, op).asked && answer.Score? && !faults.write)
    case ReportThreat(ip, parses, _, faults) => faults.existing && ip in s.l2 ==> !Writes(s, ip, parses, faults)
    case Deliver(_, _, _, _) => true
    case Cleanup(now, faults) =>
      !faults.delete ==>
        && (faults.count ==> Dead(s.l2, now) == {})
        && (faults.threatCount ==> Dead(s.l2, now) * ThreatRows(s.l2) == {})
  }

  ghost predicate RunOffExpiry(config: Config, s: State, ops: seq<Op>)
    decreases |ops|
  {
    ops == [] || (OffExpiry(s, ops[0]) && RunOffExpiry(config, Step(config, s, ops[0]).state, ops[1..]))
  }

  ghost predicate RunCountsRight(config: Config, s: State, ops: seq<Op>)
    decreases |ops|
  {
    ops == [] || (CountsRight(config, s, ops[0]) && RunCountsRight(config, Step(config, s, ops[0]).state, ops[1..]))
  }

  /** The gauges count the table in every state of the run. */
  ghost predicate AlwaysCounted(config: Config, s: State, ops: seq<Op>)
    decreases |ops|
  {
    Counted(s) && (ops != [] ==> AlwaysCounted(config, Step(config, s, ops[0]).state, ops[1..]))
  }

  // ---------- the two stores ----------

  /** Writing the same record to both stores keeps them in agreement. */
  lemma PutBacked(l1: seq<Entry>, l2: Rows, maxSize: int, ip: IP, record: IPRecord, now: Instant)
    requires Distinct(l1) && ip in l2 && l2[ip] == record
    requires forall other :: other != ip && Find(l1, other).Some? ==> other in l2 && l2[other] == Find(l1, other).value
    ensures Distinct(Put(l1, maxSize, ip, record, now)) && Backed(Put(l1, maxSize, ip, record, now), l2)
  {
    PutEverywhere(l1, maxSize, ip, record, now);
  }

  // ---------- one operation ----------

  lemma CleanExpiredCoherent(s: State, ip: IP, now: Instant, faults: Faults)
    requires Coherent(s) && Find(s.l1, ip).Some?
    ensures var t := CleanExpiredIP(s, ip, now, faults);
            Coherent(t) && Find(t.l1, ip).None? && t.breaker == s.breaker
  {
    TouchEverywhere(s.l1, ip, now);
    WithoutEverywhere(Touch(s.l1, ip, now), ip);
  }

  lemma ApiRequestCoherent(config: Config, s: State, ip: IP, done: Instant, answer: Answer, faults: Faults)
    requires Sane(config) && done > ZERO_TIME
    requires Coherent(s) && Find(s.l1, ip).None?
    ensures var (t, record) := ApiRequest(config, s, ip, done, answer, faults);
            && Coherent(t) && t.l1 == s.l1 && t.breaker == s.breaker
            && (record.Some? ==> ip in t.l2 && t.l2[ip] == record.value)
  {
  }

  lemma CheckL2Coherent(config: Config, s: State, ip: IP, now: Instant, done: Instant, answer: Answer, faults: Faults)
    requires Sane(config) && ZERO_TIME < now <= done
    requires Coherent(s) && Find(s.l1, ip).None?
    ensures var t := CheckL2(config, s, ip, now, done, answer, faults).state;
            Coherent(t)
  {
    if GetByIp(s.l2, ip, now).Some? {
      PutBacked(s.l1, s.l2, config.maxSize, ip, s.l2[ip], now);
    }
    ApiRequestCoherent(config, s, ip, done, answer, faults);
    var (t, record) := ApiRequest(config, s, ip, done, answer, faults);
    if record.Some? {
      PutBacked(t.l1, t.l2, config.maxSize, ip, record.value, done);
    }
  }

  lemma CheckCoherent(config: Config, s: State, ip: IP, now: Instant, done: Instant, answer: Answer, faults: Faults)
    requires Sane(config) && ZERO_TIME < now <= done && Coherent(s)
    ensures var t := CheckIP(config, s, ip, now, done, answer, faults).state;
            Coherent(t)
  {
    TouchEverywhere(s.l1, ip, now);
    var touched := s.(l1 := Touch(s.l1, ip, now));
    if Find(s.l1, ip).None? {
      CheckL2Coherent(config, touched, ip, now, done, answer, faults);
    } else if Find(s.l1, ip).value.Expired(now) {
      CleanExpiredCoherent(touched, ip, now, faults);
      CheckL2Coherent(config, CleanExpiredIP(touched, ip, now, faults), ip, now, done, answer, faults);
    }
  }

  lemma TripCoherent(config: Config, s: State, ip: IP, parses: bool, now: Instant, faults: Faults)
    requires Sane(config) && now > ZERO_TIME && Coherent(s)
    ensures var t := Trip(config, s, ip, parses, now, faults);
            Coherent(t)
  {
    if Writes(s, ip, parses, faults) {
      var record := HoneyRecord(config, ip, now);
      PutBacked(s.l1, Update(s.l2, record, now, config.ttl), config.maxSize, ip, record, now);
    }
  }

  lemma ReportedCoherent(config: Config, s: State, ip: IP, now: Instant, delivered: bool, faults: Faults)
    requires Coherent(s)
    ensures var t := Reported(config, s, ip, now, delivered, faults);
            Coherent(t)
  {
    if ip in s.l2 {
      var record := s.l2[ip].(reported := true);
      PutBacked(s.l1, Update(s.l2, record, now, config.ttl), config.maxSize, ip, record, now);
    }
  }

  /** The sweeps agree exactly when no L1 entry expires at the instant of the cleanup. */
  lemma CleanupCoherent(s: State, now: Instant, faults: Faults)
    requires Coherent(s)
    ensures Coherent(Cleaned(s, now, faults)) <==> OffExpiry(s, Cleanup(now, faults))
  {
    SweepEverywhere(s.l1, now);
    if ip :| !faults.delete && Find(s.l1, ip).Some? && Find(s.l1, ip).value.expiresAt == now {
      assert Find(Cleaned(s, now, faults).l1, ip).Some? && ip !in Cleaned(s, now, faults).l2;
    }
  }

  /** A whole operation keeps the stores coherent exactly when it stays off expiry instants. */
  lemma StepCoherent(config: Config, s: State, op: Op)
    requires Sane(config) && ZERO_TIME < op.Begin() <= op.End()
    requires Coherent(s)
    ensures Coherent(Step(config, s, op).state) <==> OffExpiry(s, op)
  {
    match op
    case Check(ip, now, done, answer, faults) => CheckCoherent(config, s, ip, now, done, answer, faults);
    case ReportThreat(ip, parses, now, faults) => TripCoherent(config, s, ip, parses, now, faults);
    case Deliver(ip, now, delivered, faults) => ReportedCoherent(config, s, ip, now, delivered, faults);
    case Cleanup(now, faults) => CleanupCoherent(s, now, faults);
  }

  // ---------- the gauges ----------

  /** L1 holds no address twice and rows sit under their own address, whatever fails. */
  lemma StepKeepsShape(config: Config, s: State, op: Op)
    requires Distinct(s.l1)
    ensures Distinct(Step(config, s, op).state.l1)
    ensures Keyed(s.l2) ==> Keyed(Step(config, s, op).state.l2)
  {
    match op
    case Check(ip, now, done, answer, faults) =>
      TouchEverywhere(s.l1, ip, now);
      TouchEverywhere(Touch(s.l1, ip, now), ip, now);
      WithoutEverywhere(Touch(Touch(s.l1, ip, now), ip, now), ip);
      var touched := s.(l1 := Touch(s.l1, ip, now));
      BelowKeepsShape(config, touched, op);
      BelowKeepsShape(config, CleanExpiredIP(touched, ip, now, faults), op);
    case ReportThreat(ip, _, now, _) => PutEverywhere(s.l1, config.maxSize, ip, HoneyRecord(config, ip, now), now);
    case Deliver(ip, now, _, _) =>
      if ip in s.l2 {
        PutEverywhere(s.l1, config.maxSize, ip, s.l2[ip].(reported := true), now);
      }
    case Cleanup(now, _) => SweepEverywhere(s.l1, now);
  }

  lemma BelowKeepsShape(config: Config, s: State, op: Op)
    requires op.Check? && Distinct(s.l1)
    ensures var t := CheckL2(config, s, op.ip, op.now, op.done, op.answer, op.faults).state;
            Distinct(t.l1) && (Keyed(s.l2) ==> Keyed(t.l2))
  {
    if op.ip in s.l2 {
      PutEverywhere(s.l1, config.maxSize, op.ip, s.l2[op.ip], op.now);
    }
    var (_, record) := ApiRequest(config, s, op.ip, op.done, op.answer, op.faults);
    if record.Some? {
      PutEverywhere(s.l1, config.maxSize, op.ip, record.value, op.done);
    }
  }

  /** How far the gauges are off. */
  function Drift(s: State): Gauges {
    Gauges(s.gauges.entities - |s.l2|, s.gauges.threats - |ThreatRows(s.l2)|)
  }

  lemma CheckL2Counted(config: Config, s: State, op: Op)
    requires op.Check? && Counted(s)
    ensures var o := CheckL2(config, s, op.ip, op.now, op.done, op.answer, op.faults);
            Counted(o.state)
            <==> (op.faults.existing && op.ip in s.l2 ==> !(o.asked && op.answer.Score? && !op.faults.write))
  {
    if op.answer.Score? {
      CountsAfterUpdate(s.l2, ApiRecord(config, op.ip, op.answer.score, op.done), op.done, config.ttl);
    }
  }

  /** Without a row there is none to misread, so the gauges stay as far off as they are. */
  lemma DriftStays(config: Config, s: State, op: Op)
    requires op.Check? && op.ip !in s.l2
    ensures Drift(CheckL2(config, s, op.ip, op.now, op.done, op.answer, op.faults).state) == Drift(s)
  {
    if op.answer.Score? {
      CountsAfterUpdate(s.l2, ApiRecord(config, op.ip, op.answer.score, op.done), op.done, config.ttl);
    }
  }

  /** Dropping an expired entry together with its row. */
  lemma CleanExpiredCounted(s: State, ip: IP, now: Instant, faults: Faults)
    requires Distinct(s.l1) && Counted(s) && Find(s.l1, ip).Some? && !faults.delete
    ensures var t := CleanExpiredIP(s, ip, now, faults);
            ip !in t.l2 && (Drift(t) == Gauges(0, 0) <==> ForgetsARow(s, ip))
  {
    CountsAfterDelete(s.l2, ip);
  }

  lemma CheckCounted(config: Config, s: State, op: Op)
    requires op.Check? && Distinct(s.l1) && Counted(s)
    ensures Counted(Step(config, s, op).state) <==> CountsRight(config, s, op)
  {
    var ip, now, faults := op.ip, op.now, op.faults;
    var touched := s.(l1 := Touch(s.l1, ip, now));
    TouchEverywhere(s.l1, ip, now);
    if Find(s.l1, ip).None? {
      CheckL2Counted(config, touched, op);
    } else if Find(s.l1, ip).value.Expired(now) {
      if faults.delete {
        CheckL2Counted(config, CleanExpiredIP(touched, ip, now, faults), op);
      } else {
        CleanExpiredCounted(touched, ip, now, faults);
        DriftStays(config, CleanExpiredIP(touched, ip, now, faults), op);
      }
    }
  }

  lemma CleanupCounted(s: State, now: Instant, faults: Faults)
    requires Counted(s)
    ensures var t := Cleaned(s, now, faults);
            Counted(t) <==> (!faults.delete ==>
              (faults.count ==> Dead(s.l2, now) == {}) && (faults.threatCount ==> Dead(s.l2, now) * ThreatRows(s.l2) == {}))
  {
    CountsAfterDeleteExpired(s.l2, now);
  }

  /** An operation keeps exact gauges exact if and only if it counts right. */
  lemma StepCounted(config: Config, s: State, op: Op)
    requires Distinct(s.l1) && Keyed(s.l2) && Counted(s)
    ensures Counted(Step(config, s, op).state) <==> CountsRight(config, s, op)
  {
    match op
    case Check(_, _, _, _, _) => CheckCounted(config, s, op);
    case ReportThreat(ip, _, now, _) => CountsAfterUpdate(s.l2, HoneyRecord(config, ip, now), now, config.ttl);
    case Deliver(ip, now, _, _) =>
      if ip in s.l2 {
        CountsAfterUpdate(s.l2, s.l2[ip].(reported := true), now, config.ttl);
      }
    case Cleanup(now, faults) => CleanupCounted(s, now, faults);
  }

  // ---------- runs ----------

  /** `initializeMetrics` over the table a restarted process finds, with an empty cache. */
  function Restarted(rows: Rows, breaker: Breaker): State {
    State([], rows, breaker, Gauges(|rows|, |ThreatRows(rows)|))
  }

  lemma {:induction false} RunCounted(config: Config, s: State, ops: seq<Op>)
    requires Distinct(s.l1) && Keyed(s.l2) && Counted(s)
    ensures AlwaysCounted(config, s, ops) <==> RunCountsRight(config, s, ops)
    decreases |ops|
  {
    if ops == [] {
    } else {
      StepCounted(config, s, ops[0]);
      StepKeepsShape(config, s, ops[0]);
      if CountsRight(config, s, ops[0]) {
        RunCounted(config, Step(config, s, ops[0]).state, ops[1..]);
      }
    }
  }

  /**
   * The gauges count the table: from `initializeMetrics` on, over any serial run, the entities gauge is
   * always the number of rows and the threats gauge the number of threat rows if and only if every
   * operation counts right.
   */
  lemma GaugesCountTheTable(config: Config, rows: Rows, breaker: Breaker, ops: seq<Op>)
    requires Keyed(rows)
    ensures AlwaysCounted(config, Restarted(rows, breaker), ops) <==> RunCountsRight(config, Restarted(rows, breaker), ops)
  {
    RunCounted(config, Restarted(rows, breaker), ops);
  }

  lemma {:induction false} RunCoherent(config: Config, s: State, ops: seq<Op>, clock: Instant)
    requires Sane(config) && Ordered(ops, clock) && RunOffExpiry(config, s, ops)
    requires Coherent(s)
    ensures Coherent(Run(config, s, ops))
    ensures (forall op :: op in ops ==> GaugeReadsSucceed(op)) ==> RunCountsRight(config, s, ops)
    decreases |ops|
  {
    if ops == [] {
    } else {
      StepCoherent(config, s, ops[0]);
      assert ops[0] in ops && forall op :: op in ops[1..] ==> op in ops;
      RunCoherent(config, Step(config, s, ops[0]).state, ops[1..], ops[0].End());
    }
  }

  /**
   * In particular they do when no cleanup falls on the expiry instant of an L1 entry and the reads
   * behind the arithmetic succeed; and then every L1 entry is its row in L2.
   */
  lemma GaugesCountOffExpiry(config: Config, rows: Rows, breaker: Breaker, ops: seq<Op>, clock: Instant)
    requires Sane(config) && Stored(rows) && Ordered(ops, clock)
    requires RunOffExpiry(config, Restarted(rows, breaker), ops)
    requires forall op :: op in ops ==> GaugeReadsSucceed(op)
    ensures AlwaysCounted(config, Restarted(rows, breaker), ops)
    ensures var s := Run(config, Restarted(rows, breaker), ops);
            forall ip :: Find(s.l1, ip).Some? ==> ip in s.l2 && s.l2[ip] == Find(s.l1, ip).value
  {
    RunCoherent(config, Restarted(rows, breaker), ops, clock);
    GaugesCountTheTable(config, rows, breaker, ops);
  }

  /**
   * How a cleanup on an expiry instant makes a later check count wrong: from any coherent, exactly counted state with an L1 entry
   * that expires at the instant of a cleanup, the next check of that address leaves the entities
   * gauge one below the table, whatever the API answers.
   */
  lemma CleanupOnExpiryDrifts(config: Config, s: State, ip: IP, now: Instant, later: Instant, done: Instant, answer: Answer)
    requires Sane(config) && ZERO_TIME < now < later <= done
    requires Coherent(s) && Counted(s)
    requires Find(s.l1, ip).Some? && Find(s.l1, ip).value.expiresAt == now
    ensures var t := Step(config, s, Cleanup(now, NO_FAULTS)).state;
            var u := Step(config, t, Check(ip, later, done, answer, NO_FAULTS)).state;
            u.gauges.entities == |u.l2| - 1
  {
    var t := Step(config, s, Cleanup(now, NO_FAULTS)).state;
    FindAfterSweep(s.l1, now, ip);
    assert ip !in t.l2 && Find(t.l1, ip) == Find(s.l1, ip);
    FindAfterTouch(t.l1, ip, later, ip);
    var v := CleanExpiredIP(t.(l1 := Touch(t.l1, ip, later)), ip, later, NO_FAULTS);
    assert v.l2 == t.l2;
    DriftStays(config, v, Check(ip, later, done, answer, NO_FAULTS));
  }

  /**
   * Such an entry does occur: a report whose block lasts one tick, and a cleanup at its end. The next
   * check leaves the entities gauge one below the table.
   */
  lemma ExpiryCleanupIsReachable(config: Config, ip: IP, done: Instant, answer: Answer)
    requires Sane(config) && config.blocking == For(1) && done >= 3
    ensures var trip, clean := ReportThreat(ip, true, 1, NO_FAULTS), Cleanup(2, NO_FAULTS);
            var s := Run(config, EMPTY, [trip]);
            var t := Run(config, EMPTY, [trip, clean]);
            var u := Run(config, EMPTY, [trip, clean, Check(ip, 3, done, answer, NO_FAULTS)]);
            && Coherent(s) && Counted(s) && !OffExpiry(s, clean) && !Coherent(t)
            && u.gauges.entities == |u.l2| - 1
  {
    var trip, clean, check := ReportThreat(ip, true, 1, NO_FAULTS), Cleanup(2, NO_FAULTS), Check(ip, 3, done, answer, NO_FAULTS);
    var s := Step(config, EMPTY, trip).state;
    RunOfThree(config, EMPTY, trip, clean, check);
    BlockOfOneTick(config, ip);
    StepCoherent(config, s, clean);
    CleanupOnExpiryDrifts(config, s, ip, 2, 3, done, answer);
  }

  lemma BlockOfOneTick(config: Config, ip: IP)
    requires Sane(config) && config.blocking == For(1)
    ensures var s := Step(config, EMPTY, ReportThreat(ip, true, 1, NO_FAULTS)).state;
            && Coherent(s) && Counted(s)
            && Find(s.l1, ip).Some? && Find(s.l1, ip).value.expiresAt == 2
  {
    var r := EMPTY;
    StepCoherent(config, r, ReportThreat(ip, true, 1, NO_FAULTS));
    StepCounted(config, r, ReportThreat(ip, true, 1, NO_FAULTS));
    PutEverywhere(r.l1, config.maxSize, ip, HoneyRecord(config, ip, 1), 1);
  }

  lemma RunOfThree(config: Config, s: State, a: Op, b: Op, c: Op)
    ensures var one := Step(config, s, a).state;
            var two := Step(config, one, b).state;
            && Run(config, s, [a]) == one
            && Run(config, s, [a, b]) == two
            && Run(config, s, [a, b, c]) == Step(config, two, c).state
  {
    var two := Step(config, Step(config, s, a).state, b).state;
    assert [a][1..] == [] && [a, b][1..] == [b] && [b][1..] == [];
    assert [a, b, c][1..] == [b, c] && [b, c][1..] == [c] && [c][1..] == [];
    assert Run(config, two, [c]) == Run(config, Step(config, two, c).state, []);
    assert Run(config, Step(config, s, a).state, [b]) == Run(config, two, []);
  }
}
