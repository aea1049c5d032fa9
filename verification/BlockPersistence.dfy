/**
 * A block persists: once a honeytoken report has written its record, every later check of that
 * address before the block ends says threat, whatever else happens to the gate.
 */
module BlockPersistence {
  import opened Records
  import opened Recency
  import opened Table
  import opened Gate
  import opened Coherence
  import opened Operations

  predicate Convicts(config: Config, record: IPRecord, until: Instant) {
    record.score >= config.threshold && until <= record.expiresAt
  }

  /** The same for a record in L1, which serves it through its expiry instant. */
  predicate Lingers(config: Config, record: IPRecord, until: Instant) {
    record.score >= config.threshold && until <= record.expiresAt + 1
  }

  /** Both stores convict `ip` until the given instant; L1 may also have evicted it. */
  ghost predicate Blocked(config: Config, s: State, ip: IP, until: Instant) {
    && Distinct(s.l1) && Keyed(s.l2)
    && ip in s.l2 && Convicts(config, s.l2[ip], until)
    && (Find(s.l1, ip).Some? ==> Lingers(config, Find(s.l1, ip).value, until))
  }

  predicate SaysThreat(seen: (Reply, bool)) {
    seen.0.Verdict? && seen.0.isThreat && !seen.1
  }

  /** The check could not be answered: neither from L1 nor from the table. */
  predicate GivesUp(seen: (Reply, bool)) {
    seen == (Error, false)
  }

  // ---------- one operation ----------

  lemma PutKeepsBlocked(config: Config, s: State, ip: IP, until: Instant, other: IP, record: IPRecord, now: Instant)
    requires Blocked(config, s, ip, until) && (other == ip ==> Lingers(config, record, until))
    ensures Blocked(config, s.(l1 := Put(s.l1, config.maxSize, other, record, now)), ip, until)
  {
    FindAfterPut(s.l1, config.maxSize, other, record, now, ip);
  }

  /** The check's table read fails while L1 has no entry for the address. */
  predicate Unreadable(s: State, op: Op)
    requires op.Check?
  {
    op.faults.read && Find(s.l1, op.ip).None?
  }

  lemma CheckL2KeepsBlocked(config: Config, s: State, ip: IP, until: Instant, op: Op)
    requires op.Check? && op.now < until && Blocked(config, s, ip, until)
    ensures var o := CheckL2(config, s, op.ip, op.now, op.done, op.answer, op.faults);
            && Blocked(config, o.state, ip, until)
            && (op.ip == ip ==> if op.faults.read then GivesUp((o.reply, o.asked)) else SaysThreat((o.reply, o.asked)))
  {
    if GetByIp(s.l2, op.ip, op.now).Some? {
      PutKeepsBlocked(config, s, ip, until, op.ip, s.l2[op.ip], op.now);
    } else if op.answer.Score? && op.ip != ip {
      var (t, record) := ApiRequest(config, s, op.ip, op.done, op.answer, op.faults);
      assert Blocked(config, t, ip, until);
      if record.Some? {
        PutKeepsBlocked(config, t, ip, until, op.ip, record.value, op.done);
      }
    }
  }

  lemma CheckKeepsBlocked(config: Config, s: State, ip: IP, until: Instant, op: Op)
    requires op.Check? && op.now < until && Blocked(config, s, ip, until)
    ensures var o := Step(config, s, op);
            && Blocked(config, o.state, ip, until)
            && (op.ip == ip ==> if Unreadable(s, op) then GivesUp((o.reply, o.asked)) else SaysThreat((o.reply, o.asked)))
  {
    TouchEverywhere(s.l1, op.ip, op.now);
    var touched := s.(l1 := Touch(s.l1, op.ip, op.now));
    if Find(s.l1, op.ip).None? {
      CheckL2KeepsBlocked(config, touched, ip, until, op);
    } else if Find(s.l1, op.ip).value.Expired(op.now) {
      var cleaned := CleanExpiredIP(touched, op.ip, op.now, op.faults);
      TouchEverywhere(touched.l1, op.ip, op.now);
      WithoutEverywhere(Touch(touched.l1, op.ip, op.now), op.ip);
      CheckL2KeepsBlocked(config, cleaned, ip, until, op);
    }
  }

  lemma StepKeepsBlocked(config: Config, s: State, ip: IP, until: Instant, op: Op)
    requires config.threshold <= 100 && ZERO_TIME < op.now < until <= BlockedUntil(config, op.now)
    requires Blocked(config, s, ip, until)
    ensures var o := Step(config, s, op);
            && Blocked(config, o.state, ip, until)
            && (op.Check? && op.ip == ip ==>
                  if Unreadable(s, op) then GivesUp((o.reply, o.asked)) else SaysThreat((o.reply, o.asked)))
  {
    match op
    case Check(_, _, _, _, _) => CheckKeepsBlocked(config, s, ip, until, op);
    case ReportThreat(other, _, now, _) =>
      PutKeepsBlocked(config, s, ip, until, other, HoneyRecord(config, other, now), now);
    case Deliver(other, now, _, _) =>
      if other in s.l2 {
        PutKeepsBlocked(config, s, ip, until, other, s.l2[other].(reported := true), now);
      }
    case Cleanup(now, _) => FindAfterSweep(s.l1, now, ip);
  }

  // ---------- runs ----------

  /** Check `i` of the run says threat, unless it cannot be answered. */
  ghost predicate SaysSo(config: Config, s: State, ops: seq<Op>, i: nat)
    requires i < |ops| && |Visible(config, s, ops)| == |ops| && ops[i].Check?
  {
    if Unreadable(Run(config, s, ops[..i]), ops[i]) then GivesUp(Visible(config, s, ops)[i])
    else SaysThreat(Visible(config, s, ops)[i])
  }

  lemma {:induction false} RunKeepsBlocked(config: Config, s: State, ops: seq<Op>, clock: Instant, ip: IP, until: Instant, i: nat)
    requires config.threshold <= 100 && Ordered(ops, clock) && until <= BlockedUntil(config, clock)
    requires Blocked(config, s, ip, until)
    requires i < |ops| && ops[i].Check? && ops[i].ip == ip && ops[i].now < until
    ensures |Visible(config, s, ops)| == |ops| && SaysSo(config, s, ops, i)
    decreases |ops|
  {
    VisibleLength(config, s, ops);
    if ops[0].now >= until {
      AllLater(ops, clock, until);
      assert false;
    } else {
      StepKeepsBlocked(config, s, ip, until, ops[0]);
      if i > 0 {
        assert ops[..i][1..] == ops[1..][..i - 1];
        RunKeepsBlocked(config, Step(config, s, ops[0]).state, ops[1..], ops[0].End(), ip, until, i - 1);
      }
    }
  }

  lemma {:induction false} VisibleLength(config: Config, s: State, ops: seq<Op>)
    ensures |Visible(config, s, ops)| == |ops|
    decreases |ops|
  {
    if ops == [] {
    } else {
      VisibleLength(config, Step(config, s, ops[0]).state, ops[1..]);
    }
  }

  lemma {:induction false} AllLater(ops: seq<Op>, clock: Instant, until: Instant)
    requires Ordered(ops, clock) && (clock >= until || (ops != [] && ops[0].now >= until))
    ensures forall i :: 0 <= i < |ops| ==> ops[i].now >= until
    decreases |ops|
  {
    if ops == [] {
    } else {
      AllLater(ops[1..], ops[0].End(), until);
      assert forall i :: 0 < i < |ops| ==> ops[i] == ops[1..][i - 1];
    }
  }

  /**
   * After a report that wrote at `now`, every check of that address before the configured end, which for
   * a permanent block is the last second of the year 9999, in any
   * serial run with any faults, answers and evictions, says threat without asking the API; only when
   * its own table read fails and L1 has evicted the address does it return an error instead.
   */
  lemma BlockPersists(config: Config, s: State, ip: IP, parses: bool, now: Instant, faults: Faults, ops: seq<Op>, i: nat)
    requires Sane(config) && config.threshold <= 100
    requires Distinct(s.l1) && Keyed(s.l2)
    requires Ordered(ops, now) && Writes(s, ip, parses, faults)
    requires i < |ops| && ops[i].Check? && ops[i].ip == ip && ops[i].now < EndOfBlock(config, now)
    ensures var t := Step(config, s, ReportThreat(ip, parses, now, faults)).state;
            && |Visible(config, t, ops)| == |ops|
            && (if ops[i].faults.read && Find(Run(config, t, ops[..i]).l1, ip).None?
                then GivesUp(Visible(config, t, ops)[i])
                else SaysThreat(Visible(config, t, ops)[i]))
  {
    var t := Trip(config, s, ip, parses, now, faults);
    BlocksUntilTheEnd(config, now);
    ReportBlocks(config, s, ip, parses, now, faults);
    RunKeepsBlocked(config, t, ops, now, ip, BlockedUntil(config, now), i);
  }

  lemma ReportBlocks(config: Config, s: State, ip: IP, parses: bool, now: Instant, faults: Faults)
    requires Sane(config) && config.threshold <= 100 && now > ZERO_TIME
    requires Distinct(s.l1) && Keyed(s.l2) && Writes(s, ip, parses, faults)
    ensures Blocked(config, Trip(config, s, ip, parses, now, faults), ip, BlockedUntil(config, now))
  {
    PutEverywhere(s.l1, config.maxSize, ip, HoneyRecord(config, ip, now), now);
  }

  /**
   * When a report fails to block. With no fault, a valid address and a positive duration, the table
   * holds a live threat row afterwards exactly when it did not hold an expired threat row already
   * marked as reported: such a row makes the report return early, although the block has lapsed.
   */
  lemma ReportBlocksUnlessStale(config: Config, s: State, ip: IP, now: Instant)
    requires Sane(config) && ZERO_TIME < now < BlockedUntil(config, now)
    ensures var t := Trip(config, s, ip, true, now, NO_FAULTS);
            (ip in t.l2 && t.l2[ip].status == Threat && t.l2[ip].Live(now))
            <==> !(ip in s.l2 && s.l2[ip].status == Threat && s.l2[ip].reported && !s.l2[ip].Live(now))
  {
  }

  /**
   * Such a row does occur: a report at 1 that blocks for one tick, reported to AbuseIPDB at once. A
   * report at 3 then changes nothing, and the next check takes the API's word that all is well.
   */
  lemma StaleReportIsReachable(config: Config, ip: IP)
    requires config.blocking == For(1) && config.limits.maxRetries > 0 && config.threshold > 0
    ensures var trip, deliver := ReportThreat(ip, true, 1, NO_FAULTS), Deliver(ip, 1, true, NO_FAULTS);
            var again, check := ReportThreat(ip, true, 3, NO_FAULTS), Check(ip, 3, 3, Score(0), NO_FAULTS);
            var s := Run(config, EMPTY, [trip, deliver]);
            && Run(config, EMPTY, [trip, deliver, again]) == s
            && Step(config, s, check).reply == Verdict(ip, false, AbuseIPDB)
  {
    var trip, deliver := ReportThreat(ip, true, 1, NO_FAULTS), Deliver(ip, 1, true, NO_FAULTS);
    RunOfThree(config, EMPTY, trip, deliver, ReportThreat(ip, true, 3, NO_FAULTS));
    var s := Step(config, Step(config, EMPTY, trip).state, deliver).state;
    PutEverywhere([], config.maxSize, ip, HoneyRecord(config, ip, 1), 1);
    PutEverywhere(Put([], config.maxSize, ip, HoneyRecord(config, ip, 1), 1), config.maxSize, ip, s.l2[ip], 1);
    TouchEverywhere(s.l1, ip, 3);
  }
}
