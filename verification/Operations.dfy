/**
 * What each whole operation does, said from the outside: replies, rows, entries, breaker and gauges by
 * the fields of the records and the outcome of each access, not by the functions that compute them.
 */
module Operations {
  import opened Records
  import opened Recency
  import opened Table
  import opened Calendar
  import opened Gate

  // ---------- the check ----------

  /** L1 holds a record of the address that has not expired. */
  predicate InL1(s: State, op: Op)
    requires op.Check?
  {
    Find(s.l1, op.ip).Some? && op.now <= Find(s.l1, op.ip).value.expiresAt
  }

  /** The check drops an expired L1 entry and deletes the row with it. */
  predicate DropsRow(s: State, op: Op)
    requires op.Check?
  {
    Find(s.l1, op.ip).Some? && !InL1(s, op) && !op.faults.delete
  }

  /** The table answers: its read works and finds a row that expires later. */
  predicate InL2(s: State, op: Op)
    requires op.Check?
  {
    !InL1(s, op) && !op.faults.read && !DropsRow(s, op) && op.ip in s.l2 && op.now < s.l2[op.ip].expiresAt
  }

  /** The breaker has seen enough failures and the cool-down since the last one has not passed. */
  predicate Refused(config: Config, s: State, op: Op) {
    s.breaker.failures >= config.limits.maxRetries && op.now < s.breaker.lastFailed + config.limits.coolDown
  }

  /** Neither store answers and the table could be read, so the check turns to the API. */
  predicate NeedsApi(s: State, op: Op)
    requires op.Check?
  {
    !InL1(s, op) && !InL2(s, op) && !op.faults.read
  }

  /** The API gives a score and it can be saved. */
  predicate Learns(config: Config, s: State, op: Op)
    requires op.Check?
  {
    NeedsApi(s, op) && !Refused(config, s, op) && op.answer.Score? && !op.faults.write
  }

  /**
   * The reply of a check. The stores answer from their record; a failed table read is an error; the
   * API's score decides; and otherwise, when the breaker refuses, the API is silent or the score cannot
   * be saved, the check fails open or closed as configured. The API is asked exactly when neither store
   * answers, the table could be read and the breaker allows it.
   */
  lemma CheckReplies(config: Config, s: State, op: Op)
    requires op.Check? && config.threshold > 0 && Distinct(s.l1)
    ensures var o := Step(config, s, op);
            && (o.asked <==> NeedsApi(s, op) && !Refused(config, s, op))
            && o.reply ==
               (if InL1(s, op) then
                  var r := Find(s.l1, op.ip).value; Verdict(r.ip, r.score >= config.threshold, r.source)
                else if op.faults.read then Error
                else if InL2(s, op) then
                  var r := s.l2[op.ip]; Verdict(r.ip, r.score >= config.threshold, r.source)
                else if Learns(config, s, op) then Verdict(op.ip, op.answer.score >= config.threshold, AbuseIPDB)
                else if config.openOnError then Verdict(op.ip, false, NoSource)
                else Error)
  {
    TouchEverywhere(s.l1, op.ip, op.now);
  }

  /** The record the API's score gives rise to: it expires `ttl` after the answer. */
  predicate FromScore(config: Config, ip: IP, score: int, done: Instant, r: IPRecord) {
    && r.ip == ip && r.score == score && r.source == AbuseIPDB && !r.reported
    && (r.status == Threat <==> score >= config.threshold)
    && r.checkedAt == done && r.expiresAt == done + config.ttl
  }

  /**
   * What a check leaves in the table and in the breaker: a row of that score, or the table as it was
   * without the row dropped; no other row changes. A success closes the breaker, a failed request counts.
   */
  lemma CheckWrites(config: Config, s: State, op: Op)
    requires op.Check? && Sane(config) && Distinct(s.l1) && ZERO_TIME < op.now <= op.done
    ensures var t := Step(config, s, op).state;
            && (forall ip :: ip != op.ip ==> (ip in t.l2 <==> ip in s.l2) && (ip in s.l2 ==> t.l2[ip] == s.l2[ip]))
            && (if Learns(config, s, op) then op.ip in t.l2 && FromScore(config, op.ip, op.answer.score, op.done, t.l2[op.ip])
                else if DropsRow(s, op) then op.ip !in t.l2
                else (op.ip in t.l2 <==> op.ip in s.l2) && (op.ip in s.l2 ==> t.l2[op.ip] == s.l2[op.ip]))
            && t.breaker.failures == (if Learns(config, s, op) then 0
                                      else if Step(config, s, op).asked then s.breaker.failures + 1 else s.breaker.failures)
            && t.breaker.lastFailed == (if Step(config, s, op).asked && !Learns(config, s, op) then op.done
                                        else s.breaker.lastFailed)
  {
    TouchEverywhere(s.l1, op.ip, op.now);
    CheckRows(config, s, op);
  }

  lemma CheckRows(config: Config, s: State, op: Op)
    requires op.Check? && Sane(config) && Distinct(s.l1) && ZERO_TIME < op.now <= op.done
    ensures Step(config, s, op).state.l2 ==
            (if Learns(config, s, op) then
               (if DropsRow(s, op) then s.l2 - {op.ip} else s.l2)[op.ip := ApiRecord(config, op.ip, op.answer.score, op.done)]
             else if DropsRow(s, op) then s.l2 - {op.ip} else s.l2)
  {
    TouchEverywhere(s.l1, op.ip, op.now);
  }

  /**
   * What a check leaves in L1: the record it answered from comes first, stamped with the instant it was
   * found or answered; without one the address is gone. Other addresses are unchanged or evicted.
   */
  lemma CheckCaches(config: Config, s: State, op: Op)
    requires op.Check? && Sane(config) && Distinct(s.l1) && ZERO_TIME < op.now <= op.done
    ensures var t := Step(config, s, op).state;
            && Distinct(t.l1)
            && (InL1(s, op) ==> t.l1 != [] && t.l1[0] == Entry(op.ip, Find(s.l1, op.ip).value, op.now))
            && (InL2(s, op) ==> t.l1 != [] && t.l1[0] == Entry(op.ip, s.l2[op.ip], op.now))
            && (Learns(config, s, op) ==> t.l1 != [] && op.ip in t.l2 && t.l1[0] == Entry(op.ip, t.l2[op.ip], op.done))
            && (!InL1(s, op) && !InL2(s, op) && !Learns(config, s, op) ==> Find(t.l1, op.ip).None?)
            && (forall ip :: ip != op.ip && Find(t.l1, ip).Some? ==> Find(t.l1, ip) == Find(s.l1, ip))
  {
    var touched := s.(l1 := Touch(s.l1, op.ip, op.now));
    TouchEverywhere(s.l1, op.ip, op.now);
    TouchEverywhere(touched.l1, op.ip, op.now);
    WithoutEverywhere(Touch(touched.l1, op.ip, op.now), op.ip);
    if Find(s.l1, op.ip).None? {
      CachesBelow(config, touched, op);
    } else if !InL1(s, op) {
      CachesBelow(config, CleanExpiredIP(touched, op.ip, op.now, op.faults), op);
    }
  }

  lemma CachesBelow(config: Config, s: State, op: Op)
    requires op.Check? && Sane(config) && Distinct(s.l1) && ZERO_TIME < op.now <= op.done && Find(s.l1, op.ip).None?
    ensures var o := CheckL2(config, s, op.ip, op.now, op.done, op.answer, op.faults);
            && Distinct(o.state.l1)
            && (InL2(s, op) ==> o.state.l1 != [] && o.state.l1[0] == Entry(op.ip, s.l2[op.ip], op.now))
            && (Learns(config, s, op) ==>
                  op.ip in o.state.l2 && o.state.l1 != [] && o.state.l1[0] == Entry(op.ip, o.state.l2[op.ip], op.done))
            && (!InL2(s, op) && !Learns(config, s, op) ==> o.state.l1 == s.l1)
            && (forall ip :: ip != op.ip && Find(o.state.l1, ip).Some? ==> Find(o.state.l1, ip) == Find(s.l1, ip))
  {
    if InL2(s, op) {
      PutEverywhere(s.l1, config.maxSize, op.ip, s.l2[op.ip], op.now);
    } else if Learns(config, s, op) {
      PutEverywhere(s.l1, config.maxSize, op.ip, ApiRecord(config, op.ip, op.answer.score, op.done), op.done);
    }
  }

  // ---------- active defence ----------

  /** The instant at which a block made at `now` ends, as configured. */
  function EndOfBlock(config: Config, now: Instant): Instant {
    match config.blocking
    case Permanent => LastSecondOf(9999)
    case For(duration) => now + duration
  }

  /** A permanent block lasts until 9999-12-31 23:59:59. */
  lemma BlocksUntilTheEnd(config: Config, now: Instant)
    ensures BlockedUntil(config, now) == EndOfBlock(config, now)
  {
    DaysInClosedForm(10000);
  }

  /**
   * A honeytoken report. It writes unless the address is invalid, the write fails, or a read that works
   * finds a threat row already reported; then both stores hold a threat of score 100, not reported, until
   * the configured end, and no other row changes. Otherwise nothing changes at all.
   */
  lemma ReportWrites(config: Config, s: State, op: Op)
    requires op.ReportThreat? && Sane(config) && Distinct(s.l1) && ZERO_TIME < op.now
    ensures var t := Step(config, s, op).state;
            var known := !op.faults.existing && op.ip in s.l2 && s.l2[op.ip].status == Threat && s.l2[op.ip].reported;
            if !op.parses || known || op.faults.write then t == s
            else
              var r := IPRecord(op.ip, Threat, 100, ActiveDefence, op.now, EndOfBlock(config, op.now), false);
              && t.l2 == s.l2[op.ip := r] && t.breaker == s.breaker
              && t.l1 != [] && t.l1[0] == Entry(op.ip, r, op.now)
              && forall ip :: ip != op.ip && Find(t.l1, ip).Some? ==> Find(t.l1, ip) == Find(s.l1, ip)
  {
    BlocksUntilTheEnd(config, op.now);
    var r := IPRecord(op.ip, Threat, 100, ActiveDefence, op.now, EndOfBlock(config, op.now), false);
    DaysInClosedForm(10000);
    PutEverywhere(s.l1, config.maxSize, op.ip, r, op.now);
  }

  /**
   * A background report marks the row, and nothing else about it, exactly when it can read an unreported
   * row, the report is delivered and the write works; L1 then holds the marked record.
   */
  lemma BackgroundReportMarks(config: Config, s: State, op: Op)
    requires op.Deliver? && Stored(s.l2) && Distinct(s.l1)
    ensures var t := Step(config, s, op).state;
            var marks := !op.faults.existing && op.ip in s.l2 && !s.l2[op.ip].reported && op.delivered && !op.faults.write;
            if !marks then t == s
            else
              var r := s.l2[op.ip].(reported := true);
              && t.l2 == s.l2[op.ip := r] && t.breaker == s.breaker && t.gauges == s.gauges
              && t.l1 != [] && t.l1[0] == Entry(op.ip, r, op.now)
              && forall ip :: ip != op.ip && Find(t.l1, ip).Some? ==> Find(t.l1, ip) == Find(s.l1, ip)
  {
    if op.ip in s.l2 {
      PutEverywhere(s.l1, config.maxSize, op.ip, s.l2[op.ip].(reported := true), op.now);
    }
  }

  // ---------- the cleanup worker ----------

  /**
   * A cleanup keeps exactly the rows that expire later, unless the delete fails, and exactly the L1
   * entries that do not expire earlier; each gauge is recounted if rows were deleted and its query works.
   */
  lemma CleanupKeeps(config: Config, s: State, op: Op)
    requires op.Cleanup?
    ensures var t := Step(config, s, op).state;
            && t.breaker == s.breaker
            && (forall ip :: ip in t.l2 <==> ip in s.l2 && (op.faults.delete || op.now < s.l2[ip].expiresAt))
            && (forall ip :: ip in t.l2 ==> t.l2[ip] == s.l2[ip])
            && (forall e :: e in t.l1 <==> e in s.l1 && op.now <= e.record.expiresAt)
            && t.gauges.entities == (if op.faults.delete || op.faults.count then s.gauges.entities else |t.l2|)
            && t.gauges.threats == (if op.faults.delete || op.faults.threatCount then s.gauges.threats
                                    else |set ip | ip in t.l2 && t.l2[ip].status == Threat|)
  {
    SweepIsExact(s.l1, op.now);
  }
}
