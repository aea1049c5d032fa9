/**
 * When L1 is invisible. A gate without L1, whose table forgets a row the instant it expires, is the
 * reference. The gate with L1 gives the same replies, API calls, breaker and live rows in every step
 * of a run exactly when L1 never answers where the table could not and no report stops at a dead row.
 * Two gates with different L1 are compared through the same reference.
 */
module Transparency {
  import opened Records
  import opened Recency
  import opened Table
  import opened CircuitBreaker
  import opened Gate
  import opened Coherence

  // ---------- the gate without L1 ----------

  /** Only the live rows and the breaker. */
  datatype Plain = Plain(rows: Rows, breaker: Breaker)

  function Seen(s: State, now: Instant): Plain {
    Plain(DeleteExpired(s.l2, now), s.breaker)
  }

  function PlainCheck(config: Config, p: Plain, ip: IP, now: Instant, done: Instant, answer: Answer, faults: Faults): (Plain, Reply, bool) {
    var rows := DeleteExpired(p.rows, now);
    var later := DeleteExpired(rows, done);
    if faults.read then (Plain(later, p.breaker), Error, false)
    else if ip in rows then (Plain(later, p.breaker), Served(config, rows[ip]), false)
    else if !Allows(p.breaker, config.limits, now) then (Plain(later, p.breaker), Fallback(config, ip), false)
    else if answer.NoAnswer? || faults.write then (Plain(later, Failed(p.breaker, done)), Fallback(config, ip), true)
    else
      var record := ApiRecord(config, ip, answer.score, done);
      (Plain(DeleteExpired(rows[ip := record], done), Succeeded(p.breaker)), Served(config, record), true)
  }

  function PlainStep(config: Config, p: Plain, op: Op): (Plain, Reply, bool) {
    match op
    case Check(ip, now, done, answer, faults) => PlainCheck(config, p, ip, now, done, answer, faults)
    case ReportThreat(ip, parses, now, faults) =>
      var rows := DeleteExpired(p.rows, now);
      var known := !faults.existing && ip in rows && rows[ip].status == Threat && rows[ip].reported;
      var next := if parses && !known && !faults.write then rows[ip := HoneyRecord(config, ip, now)] else rows;
      (Plain(DeleteExpired(next, now), p.breaker), NoReply, false)
    case Deliver(ip, now, delivered, faults) =>
      var rows := DeleteExpired(p.rows, now);
      var marks := !faults.existing && ip in rows && !rows[ip].reported && delivered && !faults.write;
      var next := if marks then rows[ip := rows[ip].(reported := true)] else rows;
      (Plain(DeleteExpired(next, now), p.breaker), NoReply, false)
    case Cleanup(now, _) => (Plain(DeleteExpired(p.rows, now), p.breaker), NoReply, false)
  }

  function PlainVisible(config: Config, p: Plain, ops: seq<Op>): seq<(Reply, bool)>
    decreases |ops|
  {
    if ops == [] then []
    else
      var (q, reply, asked) := PlainStep(config, p, ops[0]);
      [(reply, asked)] + PlainVisible(config, q, ops[1..])
  }

  function PlainRun(config: Config, p: Plain, ops: seq<Op>): Plain
    decreases |ops|
  {
    if ops == [] then p else PlainRun(config, PlainStep(config, p, ops[0]).0, ops[1..])
  }

  // ---------- where the gate stands alone ----------

  /** L1 answers a check at the instant its record expires, or while the check's table read fails. */
  predicate AnswersAlone(s: State, op: Op) {
    op.Check? && Find(s.l1, op.ip).Some?
    && var record := Find(s.l1, op.ip).value;
       !record.Expired(op.now) && (record.expiresAt == op.now || op.faults.read)
  }

  /** A report that could write a block stops at a reported threat row that has expired. */
  predicate StopsAtDeadRow(config: Config, s: State, op: Op) {
    op.ReportThreat? && op.parses && !op.faults.write && BlockedUntil(config, op.now) > op.now
    && AlreadyReported(s, op.ip, op.faults) && !s.l2[op.ip].Live(op.now)
  }

  predicate StandsAlone(config: Config, s: State, op: Op) {
    AnswersAlone(s, op) || StopsAtDeadRow(config, s, op)
  }

  ghost predicate NeverAlone(config: Config, s: State, ops: seq<Op>)
    decreases |ops|
  {
    ops == [] || (!StandsAlone(config, s, ops[0]) && NeverAlone(config, Step(config, s, ops[0]).state, ops[1..]))
  }

  // ---------- what L1 may hold ----------

  /** The record is its row, or it is dead and so is whatever the table has. */
  predicate Shadows(s: State, ip: IP, record: IPRecord, clock: Instant) {
    && record.source != NoSource
    && ((ip in s.l2 && s.l2[ip] == record) || (record.expiresAt <= clock && GetByIp(s.l2, ip, clock).None?))
  }

  /** Rows name the source that wrote them. */
  ghost predicate Sourced(rows: Rows) {
    forall ip :: ip in rows ==> rows[ip].source != NoSource
  }

  ghost predicate Shadowed(s: State, clock: Instant) {
    && Distinct(s.l1) && Stored(s.l2) && Sourced(s.l2)
    && forall ip :: Find(s.l1, ip).Some? ==> Shadows(s, ip, Find(s.l1, ip).value, clock)
  }

  lemma ShadowedLater(s: State, clock: Instant, later: Instant)
    requires Shadowed(s, clock) && clock <= later
    ensures Shadowed(s, later)
  {
  }

  /** Writing the same record to both stores, or copying a row into L1, keeps L1 a shadow. */
  lemma PutShadowed(s: State, l2: Rows, maxSize: int, ip: IP, record: IPRecord, now: Instant)
    requires Shadowed(s, now) && Stored(l2) && record.source != NoSource && l2 == s.l2[ip := record]
    ensures Shadowed(s.(l1 := Put(s.l1, maxSize, ip, record, now), l2 := l2), now)
  {
    PutEverywhere(s.l1, maxSize, ip, record, now);
  }

  lemma CheckL2Shadowed(config: Config, s: State, op: Op)
    requires Sane(config) && op.Check? && ZERO_TIME < op.now <= op.done
    requires Shadowed(s, op.now) && Find(s.l1, op.ip).None?
    ensures Shadowed(CheckL2(config, s, op.ip, op.now, op.done, op.answer, op.faults).state, op.done)
  {
    ShadowedLater(s, op.now, op.done);
    if GetByIp(s.l2, op.ip, op.now).Some? {
      assert s.l2[op.ip := s.l2[op.ip]] == s.l2;
      PutShadowed(s, s.l2, config.maxSize, op.ip, s.l2[op.ip], op.now);
      ShadowedLater(s.(l1 := Put(s.l1, config.maxSize, op.ip, s.l2[op.ip], op.now)), op.now, op.done);
    } else if op.answer.Score? {
      var record := ApiRecord(config, op.ip, op.answer.score, op.done);
      PutShadowed(s, s.l2[op.ip := record], config.maxSize, op.ip, record, op.done);
    }
  }

  lemma CheckShadowed(config: Config, s: State, op: Op)
    requires Sane(config) && op.Check? && ZERO_TIME < op.now <= op.done && Shadowed(s, op.now)
    ensures Shadowed(Step(config, s, op).state, op.done)
  {
    var touched := s.(l1 := Touch(s.l1, op.ip, op.now));
    TouchEverywhere(s.l1, op.ip, op.now);
    assert Shadowed(touched, op.now);
    if Find(s.l1, op.ip).None? {
      CheckL2Shadowed(config, touched, op);
    } else if Find(s.l1, op.ip).value.Expired(op.now) {
      UncachedShadowed(touched, op);
      CheckL2Shadowed(config, CleanExpiredIP(touched, op.ip, op.now, op.faults), op);
    } else {
      ShadowedLater(touched, op.now, op.done);
    }
  }

  lemma UncachedShadowed(s: State, op: Op)
    requires op.Check? && Shadowed(s, op.now)
    ensures var t := CleanExpiredIP(s, op.ip, op.now, op.faults);
            Shadowed(t, op.now) && Find(t.l1, op.ip).None?
  {
    TouchEverywhere(s.l1, op.ip, op.now);
    WithoutEverywhere(Touch(s.l1, op.ip, op.now), op.ip);
  }

  /** Every operation, whatever fails, keeps L1 a shadow of the table. */
  lemma StepShadowed(config: Config, s: State, op: Op)
    requires Sane(config) && ZERO_TIME < op.Begin() <= op.End() && Shadowed(s, op.Begin())
    ensures Shadowed(Step(config, s, op).state, op.End())
  {
    match op
    case Check(_, _, _, _, _) => CheckShadowed(config, s, op);
    case ReportThreat(ip, _, now, _) =>
      var record := HoneyRecord(config, ip, now);
      PutShadowed(s, s.l2[ip := record], config.maxSize, ip, record, now);
    case Deliver(ip, now, _, _) =>
      if ip in s.l2 {
        var record := s.l2[ip].(reported := true);
        PutShadowed(s, s.l2[ip := record], config.maxSize, ip, record, now);
      }
    case Cleanup(now, _) => SweepEverywhere(s.l1, now);
  }

  // ---------- one operation ----------

  lemma DeleteExpiredTwice(rows: Rows, a: Instant, b: Instant)
    requires a <= b
    ensures DeleteExpired(DeleteExpired(rows, a), b) == DeleteExpired(rows, b)
  {
  }

  /** Overwriting a row hides what an expired one said before. */
  lemma UpdateLive(rows: Rows, ip: IP, record: IPRecord, a: Instant, b: Instant)
    requires a <= b
    ensures DeleteExpired(DeleteExpired(rows, a)[ip := record], b) == DeleteExpired(rows[ip := record], b)
  {
  }

  lemma DeleteDead(rows: Rows, ip: IP, now: Instant)
    requires GetByIp(rows, ip, now).None?
    ensures DeleteExpired(Delete(rows, ip), now) == DeleteExpired(rows, now)
  {
  }

  /** What the operation shows: the live rows and the breaker after it, the reply, the API call. */
  function Shown(config: Config, s: State, op: Op): (Plain, Reply, bool) {
    var o := Step(config, s, op);
    (Seen(o.state, op.End()), o.reply, o.asked)
  }

  lemma CheckL2Mirrors(config: Config, s: State, op: Op)
    requires Sane(config) && op.Check? && ZERO_TIME < op.now <= op.done
    ensures var o := CheckL2(config, s, op.ip, op.now, op.done, op.answer, op.faults);
            (Seen(o.state, op.done), o.reply, o.asked) == PlainStep(config, Seen(s, op.now), op)
  {
    DeleteExpiredTwice(s.l2, op.now, op.now);
    DeleteExpiredTwice(s.l2, op.now, op.done);
    if op.answer.Score? {
      UpdateLive(s.l2, op.ip, ApiRecord(config, op.ip, op.answer.score, op.done), op.now, op.done);
    }
  }

  lemma CheckMirrors(config: Config, s: State, op: Op)
    requires Sane(config) && op.Check? && ZERO_TIME < op.now <= op.done
    requires Shadowed(s, op.now) && !AnswersAlone(s, op)
    ensures Shown(config, s, op) == PlainStep(config, Seen(s, op.now), op)
  {
    var touched := s.(l1 := Touch(s.l1, op.ip, op.now));
    TouchEverywhere(s.l1, op.ip, op.now);
    if Find(s.l1, op.ip).None? {
      CheckL2Mirrors(config, touched, op);
    } else if Find(s.l1, op.ip).value.Expired(op.now) {
      DeleteDead(s.l2, op.ip, op.now);
      CheckL2Mirrors(config, CleanExpiredIP(touched, op.ip, op.now, op.faults), op);
    } else {
      DeleteExpiredTwice(s.l2, op.now, op.now);
      DeleteExpiredTwice(s.l2, op.now, op.done);
    }
  }

  /** The reply of L1 is a verdict that names a source; the gate without L1 has no such reply. */
  lemma AloneDiffers(config: Config, s: State, op: Op)
    requires Shadowed(s, op.now) && AnswersAlone(s, op)
    ensures var (_, reply, asked) := PlainStep(config, Seen(s, op.now), op);
            (Step(config, s, op).reply, Step(config, s, op).asked) != (reply, asked)
  {
    if !op.faults.read {
      assert op.ip !in DeleteExpired(Seen(s, op.now).rows, op.now);
    }
  }

  lemma ReportMirrors(config: Config, s: State, op: Op)
    requires Sane(config) && op.ReportThreat? && ZERO_TIME < op.now && Shadowed(s, op.now)
    ensures Shown(config, s, op) == PlainStep(config, Seen(s, op.now), op) <==> !StopsAtDeadRow(config, s, op)
  {
    var record := HoneyRecord(config, op.ip, op.now);
    DeleteExpiredTwice(s.l2, op.now, op.now);
    UpdateLive(s.l2, op.ip, record, op.now, op.now);
    if AlreadyReported(s, op.ip, op.faults) && !s.l2[op.ip].Live(op.now) {
      var dead := DeleteExpired(s.l2, op.now);
      assert op.ip !in dead;
      assert record.Live(op.now) ==> op.ip in DeleteExpired(dead[op.ip := record], op.now);
      assert !record.Live(op.now) ==> DeleteExpired(dead[op.ip := record], op.now) == dead;
    }
  }

  lemma DeliverMirrors(config: Config, s: State, op: Op)
    requires op.Deliver? && Shadowed(s, op.now)
    ensures Shown(config, s, op) == PlainStep(config, Seen(s, op.now), op)
  {
    DeleteExpiredTwice(s.l2, op.now, op.now);
    if op.ip in s.l2 {
      var record := s.l2[op.ip].(reported := true);
      UpdateLive(s.l2, op.ip, record, op.now, op.now);
      assert !record.Live(op.now) ==> DeleteExpired(s.l2[op.ip := record], op.now) == DeleteExpired(s.l2, op.now);
    }
  }

  /** The exact condition for one operation, with any faults: the gate does not stand alone. */
  lemma StepMirrorsExactly(config: Config, s: State, op: Op)
    requires Sane(config) && ZERO_TIME < op.Begin() <= op.End() && Shadowed(s, op.Begin())
    ensures Shown(config, s, op) == PlainStep(config, Seen(s, op.Begin()), op) <==> !StandsAlone(config, s, op)
  {
    match op
    case Check(_, _, _, _, _) =>
      if AnswersAlone(s, op) {
        AloneDiffers(config, s, op);
      } else {
        CheckMirrors(config, s, op);
      }
    case ReportThreat(_, _, _, _) => ReportMirrors(config, s, op);
    case Deliver(_, _, _, _) => DeliverMirrors(config, s, op);
    case Cleanup(now, _) => DeleteExpiredTwice(s.l2, now, now);
  }

  /** A step starts by forgetting what has expired, so it may start from any earlier view. */
  lemma PlainStepForgets(config: Config, s: State, op: Op, clock: Instant)
    requires clock <= op.now
    ensures PlainStep(config, Seen(s, clock), op) == PlainStep(config, Seen(s, op.now), op)
  {
    DeleteExpiredTwice(s.l2, clock, op.now);
    DeleteExpiredTwice(s.l2, op.now, op.now);
  }

  // ---------- runs ----------

  /** Every operation of the run shows what the gate without L1 shows. */
  ghost predicate RunMirrors(config: Config, s: State, p: Plain, ops: seq<Op>)
    decreases |ops|
  {
    ops == [] ||
    (Shown(config, s, ops[0]) == PlainStep(config, p, ops[0])
     && RunMirrors(config, Step(config, s, ops[0]).state, PlainStep(config, p, ops[0]).0, ops[1..]))
  }

  /**
   * The exact condition for runs: L1 stays invisible if and only if the gate never stands alone.
   */
  lemma {:induction false} RunMirrorsExactly(config: Config, s: State, ops: seq<Op>, clock: Instant)
    requires Sane(config) && Ordered(ops, clock) && Shadowed(s, clock)
    ensures RunMirrors(config, s, Seen(s, clock), ops) <==> NeverAlone(config, s, ops)
    decreases |ops|
  {
    if ops == [] {
    } else {
      var op := ops[0];
      ShadowedLater(s, clock, op.Begin());
      StepMirrorsExactly(config, s, op);
      PlainStepForgets(config, s, op, clock);
      StepShadowed(config, s, op);
      RunMirrorsExactly(config, Step(config, s, op).state, ops[1..], op.End());
    }
  }

  lemma VisibleStep(config: Config, s: State, ops: seq<Op>)
    requires ops != []
    ensures var o := Step(config, s, ops[0]);
            && Visible(config, s, ops) == [(o.reply, o.asked)] + Visible(config, o.state, ops[1..])
            && Run(config, s, ops) == Run(config, o.state, ops[1..])
  {
  }

  lemma PlainVisibleStep(config: Config, p: Plain, ops: seq<Op>)
    requires ops != []
    ensures var (q, reply, asked) := PlainStep(config, p, ops[0]);
            && PlainVisible(config, p, ops) == [(reply, asked)] + PlainVisible(config, q, ops[1..])
            && PlainRun(config, p, ops) == PlainRun(config, q, ops[1..])
  {
  }

  /** Then replies and API calls are those of the gate without L1, and so are the last live rows and breaker. */
  lemma {:induction false} RunTransparent(config: Config, s: State, ops: seq<Op>, clock: Instant)
    requires Sane(config) && Ordered(ops, clock) && Shadowed(s, clock) && NeverAlone(config, s, ops)
    ensures Visible(config, s, ops) == PlainVisible(config, Seen(s, clock), ops)
    ensures ops != [] ==> Seen(Run(config, s, ops), ops[|ops| - 1].End()) == PlainRun(config, Seen(s, clock), ops)
    decreases |ops|
  {
    if ops == [] {
    } else {
      var op := ops[0];
      ShadowedLater(s, clock, op.Begin());
      StepMirrorsExactly(config, s, op);
      PlainStepForgets(config, s, op, clock);
      StepShadowed(config, s, op);
      RunTransparent(config, Step(config, s, op).state, ops[1..], op.End());
      VisibleStep(config, s, ops);
      PlainVisibleStep(config, Seen(s, clock), ops);
    }
  }

  // ---------- two gates ----------

  /** Two gates of different capacity show the same in every operation of the run. */
  ghost predicate RunsAlike(config: Config, n: int, m: int, s: State, t: State, ops: seq<Op>)
    decreases |ops|
  {
    ops == [] ||
    (Shown(config.(maxSize := n), s, ops[0]) == Shown(config.(maxSize := m), t, ops[0])
     && RunsAlike(config, n, m, Step(config.(maxSize := n), s, ops[0]).state,
                  Step(config.(maxSize := m), t, ops[0]).state, ops[1..]))
  }

  /** Neither gate stands alone, or both do and, if they answer, with the same verdict. */
  predicate Agree(config: Config, s: State, t: State, op: Op) {
    && (StandsAlone(config, s, op) <==> StandsAlone(config, t, op))
    && (AnswersAlone(s, op) && AnswersAlone(t, op)
        ==> Served(config, Find(s.l1, op.ip).value) == Served(config, Find(t.l1, op.ip).value))
  }

  ghost predicate AlwaysAgree(config: Config, n: int, m: int, s: State, t: State, ops: seq<Op>)
    decreases |ops|
  {
    ops == [] ||
    (Agree(config, s, t, ops[0])
     && AlwaysAgree(config, n, m, Step(config.(maxSize := n), s, ops[0]).state,
                    Step(config.(maxSize := m), t, ops[0]).state, ops[1..]))
  }

  lemma PlainStepIgnoresCapacity(config: Config, n: int, p: Plain, op: Op)
    ensures PlainStep(config.(maxSize := n), p, op) == PlainStep(config, p, op)
  {
  }

  /** A gate that stands alone shows its reply and leaves the live rows and the breaker as they were. */
  lemma AloneShows(config: Config, s: State, op: Op)
    requires Sane(config) && op.Begin() <= op.End() && StandsAlone(config, s, op)
    ensures Shown(config, s, op)
         == (Seen(s, op.End()), if op.Check? then Served(config, Find(s.l1, op.ip).value) else NoReply, false)
  {
  }

  lemma AlikeExactly(config: Config, n: int, m: int, s: State, t: State, op: Op)
    requires Sane(config) && ZERO_TIME < op.Begin() <= op.End()
    requires Shadowed(s, op.Begin()) && Shadowed(t, op.Begin()) && Seen(s, op.Begin()) == Seen(t, op.Begin())
    ensures Shown(config.(maxSize := n), s, op) == Shown(config.(maxSize := m), t, op) <==> Agree(config, s, t, op)
  {
    var a, b := config.(maxSize := n), config.(maxSize := m);
    StepMirrorsExactly(a, s, op);
    StepMirrorsExactly(b, t, op);
    PlainStepIgnoresCapacity(config, n, Seen(s, op.Begin()), op);
    PlainStepIgnoresCapacity(config, m, Seen(s, op.Begin()), op);
    if StandsAlone(config, s, op) && StandsAlone(config, t, op) {
      AloneShows(a, s, op);
      AloneShows(b, t, op);
      DeleteExpiredTwice(s.l2, op.Begin(), op.End());
      DeleteExpiredTwice(t.l2, op.Begin(), op.End());
    }
  }

  /**
   * Two gates that differ in the capacity and the contents of L1, and in rows already expired, show the
   * same replies, API calls, breaker and live rows in every operation of a common run, with any faults,
   * if and only if at every operation neither stands alone, or both do with the same verdict.
   */
  lemma {:induction false} L1IsTransparent(config: Config, n: int, m: int, s: State, t: State, ops: seq<Op>, clock: Instant)
    requires Sane(config) && Ordered(ops, clock)
    requires Shadowed(s, clock) && Shadowed(t, clock) && Seen(s, clock) == Seen(t, clock)
    ensures RunsAlike(config, n, m, s, t, ops) <==> AlwaysAgree(config, n, m, s, t, ops)
    ensures RunsAlike(config, n, m, s, t, ops) ==>
              Visible(config.(maxSize := n), s, ops) == Visible(config.(maxSize := m), t, ops)
    decreases |ops|
  {
    if ops == [] {
    } else {
      var op, a, b := ops[0], config.(maxSize := n), config.(maxSize := m);
      DeleteExpiredTwice(s.l2, clock, op.Begin());
      DeleteExpiredTwice(t.l2, clock, op.Begin());
      ShadowedLater(s, clock, op.Begin());
      ShadowedLater(t, clock, op.Begin());
      AlikeExactly(config, n, m, s, t, op);
      if Agree(config, s, t, op) {
        StepShadowed(a, s, op);
        StepShadowed(b, t, op);
        L1IsTransparent(config, n, m, Step(a, s, op).state, Step(b, t, op).state, ops[1..], op.End());
        VisibleStep(a, s, ops);
        VisibleStep(b, t, ops);
      }
    }
  }

  /** In particular when neither gate ever stands alone. */
  lemma {:induction false} NeverAloneAgrees(config: Config, n: int, m: int, s: State, t: State, ops: seq<Op>)
    requires NeverAlone(config.(maxSize := n), s, ops) && NeverAlone(config.(maxSize := m), t, ops)
    ensures AlwaysAgree(config, n, m, s, t, ops)
    decreases |ops|
  {
    if ops == [] {
    } else {
      NeverAloneAgrees(config, n, m, Step(config.(maxSize := n), s, ops[0]).state,
                       Step(config.(maxSize := m), t, ops[0]).state, ops[1..]);
    }
  }

  /**
   * What the exact instant shows: at the instant its record expires, a gate that still
   * holds the record in L1 answers from it, while one with the same table and an empty L1 asks the
   * API whenever the breaker lets it.
   */
  lemma ExpiryInstantTellsThemApart(config: Config, s: State, ip: IP, now: Instant, done: Instant, answer: Answer)
    requires Coherent(s) && Find(s.l1, ip).Some? && Find(s.l1, ip).value.expiresAt == now
    ensures var op := Check(ip, now, done, answer, NO_FAULTS);
            && !Step(config, s, op).asked
            && Step(config, s.(l1 := []), op).asked == Allows(s.breaker, config.limits, now)
  {
  }

  /**
   * It shows the capacity: after two reports at one instant whose blocks last one tick, a check of the
   * first address as its block ends asks the API if L1 holds one entry and not if it holds two.
   */
  lemma CapacityShowsAtExpiry(config: Config, a: IP, b: IP, done: Instant, answer: Answer)
    requires config.blocking == For(1) && config.limits.maxRetries > 0 && a != b
    ensures var first, second := ReportThreat(a, true, 1, NO_FAULTS), ReportThreat(b, true, 1, NO_FAULTS);
            var small := Run(config.(maxSize := 1), EMPTY, [first, second]);
            var large := Run(config.(maxSize := 2), EMPTY, [first, second]);
            && Step(config.(maxSize := 1), small, Check(a, 2, done, answer, NO_FAULTS)).asked
            && !Step(config.(maxSize := 2), large, Check(a, 2, done, answer, NO_FAULTS)).asked
  {
    var first, second := ReportThreat(a, true, 1, NO_FAULTS), ReportThreat(b, true, 1, NO_FAULTS);
    TwoReports(config.(maxSize := 1), a, b);
    TwoReports(config.(maxSize := 2), a, b);
    RunOfThree(config.(maxSize := 1), EMPTY, first, second, second);
    RunOfThree(config.(maxSize := 2), EMPTY, first, second, second);
  }

  lemma TwoReports(config: Config, a: IP, b: IP)
    requires config.blocking == For(1) && a != b && 0 < config.maxSize <= 2
    ensures var s := Step(config, EMPTY, ReportThreat(a, true, 1, NO_FAULTS)).state;
            var t := Step(config, s, ReportThreat(b, true, 1, NO_FAULTS)).state;
            && t.breaker == FRESH && a in t.l2 && t.l2[a].expiresAt == 2
            && Find(t.l1, a) == (if config.maxSize == 1 then None else Some(HoneyRecord(config, a, 1)))
  {
    var one, two := Entry(a, HoneyRecord(config, a, 1), 1), Entry(b, HoneyRecord(config, b, 1), 1);
    var s := Step(config, EMPTY, ReportThreat(a, true, 1, NO_FAULTS)).state;
    assert s.l1 == [one];
    assert [one][1..] == [] && [one][..0] == [];
    assert Slot([one], b) == Slot([], b);
    var t := Step(config, s, ReportThreat(b, true, 1, NO_FAULTS)).state;
    assert t.l1 == if config.maxSize == 1 then [two] else [two, one];
    assert [two, one][1..] == [one];
    assert Slot([two, one], a) == Slot([one], a);
    assert Slot([two], a) == Slot([], a);
  }
}
