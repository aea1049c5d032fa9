/**
 * Where records come from and when they are served. From empty stores, every record in L1 or L2 is
 * the record of a score the API really gave for that address, or of a honeytoken report; a
 * fail-open answer is never stored; and a verdict rests on a record that has not expired.
 */
module Provenance {
  import opened Records
  import opened Sequences
  import opened Recency
  import opened Table
  import opened Gate

  /** The state after a run from empty stores. */
  function After(config: Config, ops: seq<Op>): State {
    if ops == [] then EMPTY else Step(config, After(config, ops[..|ops| - 1]), ops[|ops| - 1]).state
  }

  /** `record` without its reported mark is what operation `i` of the run wrote for `ip`. */
  ghost predicate WrittenAt(config: Config, ops: seq<Op>, i: nat, ip: IP, record: IPRecord)
    requires i < |ops|
  {
    var before := After(config, ops[..i]);
    match ops[i]
    case Check(who, now, done, answer, faults) =>
      && who == ip && answer.Score? && Step(config, before, ops[i]).asked
      && record.(reported := false) == ApiRecord(config, ip, answer.score, done)
    case ReportThreat(who, parses, now, faults) =>
      && who == ip && Writes(before, ip, parses, faults)
      && record.(reported := false) == HoneyRecord(config, ip, now)
    case _ => false
  }

  ghost predicate Genuine(config: Config, ops: seq<Op>, ip: IP, record: IPRecord) {
    exists i :: 0 <= i < |ops| && WrittenAt(config, ops, i, ip, record)
  }

  ghost predicate AllGenuine(config: Config, ops: seq<Op>, s: State) {
    && (forall ip :: ip in s.l2 ==> Genuine(config, ops, ip, s.l2[ip]))
    && (forall ip :: Find(s.l1, ip).Some? ==> Genuine(config, ops, ip, Find(s.l1, ip).value))
  }

  /** The status is threat exactly when the score meets the threshold. */
  lemma GenuineStatus(config: Config, ops: seq<Op>, ip: IP, record: IPRecord)
    requires config.threshold <= 100 && Genuine(config, ops, ip, record)
    ensures record.ip == ip
    ensures record.status == Threat <==> record.score >= config.threshold
  {
  }

  // ---------- history grows ----------

  lemma GenuineLater(config: Config, ops: seq<Op>, op: Op, ip: IP, record: IPRecord)
    requires Genuine(config, ops, ip, record)
    ensures Genuine(config, ops + [op], ip, record)
  {
    var i :| 0 <= i < |ops| && WrittenAt(config, ops, i, ip, record);
    assert (ops + [op])[..i] == ops[..i];
    assert WrittenAt(config, ops + [op], i, ip, record);
  }

  lemma AllGenuineLater(config: Config, ops: seq<Op>, op: Op, s: State)
    requires AllGenuine(config, ops, s)
    ensures AllGenuine(config, ops + [op], s)
  {
    forall ip | ip in s.l2
      ensures Genuine(config, ops + [op], ip, s.l2[ip])
    {
      GenuineLater(config, ops, op, ip, s.l2[ip]);
    }
    forall ip | Find(s.l1, ip).Some?
      ensures Genuine(config, ops + [op], ip, Find(s.l1, ip).value)
    {
      GenuineLater(config, ops, op, ip, Find(s.l1, ip).value);
    }
  }

  /** Marking a record as reported does not change where it came from. */
  lemma GenuineMarked(config: Config, ops: seq<Op>, ip: IP, record: IPRecord)
    requires Genuine(config, ops, ip, record)
    ensures Genuine(config, ops, ip, record.(reported := true))
  {
    var i :| 0 <= i < |ops| && WrittenAt(config, ops, i, ip, record);
    assert WrittenAt(config, ops, i, ip, record.(reported := true));
  }

  lemma WrittenNow(config: Config, ops: seq<Op>, op: Op, ip: IP, record: IPRecord)
    requires (ops + [op])[..|ops|] == ops ==> WrittenAt(config, ops + [op], |ops|, ip, record)
    ensures Genuine(config, ops + [op], ip, record)
  {
    assert (ops + [op])[..|ops|] == ops;
  }

  // ---------- one operation ----------

  lemma PutGenuine(config: Config, ops: seq<Op>, s: State, ip: IP, record: IPRecord, now: Instant)
    requires Distinct(s.l1) && AllGenuine(config, ops, s) && Genuine(config, ops, ip, record)
    ensures AllGenuine(config, ops, s.(l1 := Put(s.l1, config.maxSize, ip, record, now)))
    ensures Distinct(Put(s.l1, config.maxSize, ip, record, now))
  {
    PutEverywhere(s.l1, config.maxSize, ip, record, now);
  }

  lemma TouchGenuine(config: Config, ops: seq<Op>, s: State, ip: IP, now: Instant)
    requires Distinct(s.l1) && AllGenuine(config, ops, s)
    ensures AllGenuine(config, ops, s.(l1 := Touch(s.l1, ip, now)))
    ensures Distinct(Touch(s.l1, ip, now))
  {
    TouchEverywhere(s.l1, ip, now);
  }

  lemma KeepGenuine(config: Config, ops: seq<Op>, s: State, p: Entry -> bool)
    requires Distinct(s.l1) && AllGenuine(config, ops, s)
    ensures AllGenuine(config, ops, s.(l1 := Keep(p, s.l1)))
    ensures Distinct(Keep(p, s.l1))
  {
    KeepDistinct(p, s.l1);
    forall other | Find(Keep(p, s.l1), other).Some?
      ensures Find(Keep(p, s.l1), other) == Find(s.l1, other)
    {
      FindKept(s.l1, p, other);
    }
  }

  lemma CheckL2Genuine(config: Config, before: seq<Op>, op: Op, s: State)
    requires Sane(config) && op.Check? && ZERO_TIME < op.now <= op.done
    requires Distinct(s.l1) && AllGenuine(config, before + [op], s)
    requires (Step(config, After(config, before), op).asked && op.answer.Score?)
             ==> Genuine(config, before + [op], op.ip, ApiRecord(config, op.ip, op.answer.score, op.done))
    requires CheckL2(config, s, op.ip, op.now, op.done, op.answer, op.faults).asked
             ==> Step(config, After(config, before), op).asked
    ensures var t := CheckL2(config, s, op.ip, op.now, op.done, op.answer, op.faults).state;
            Distinct(t.l1) && AllGenuine(config, before + [op], t)
  {
    var ops := before + [op];
    if GetByIp(s.l2, op.ip, op.now).Some? {
      PutGenuine(config, ops, s, op.ip, s.l2[op.ip], op.now);
    } else {
      var (t, record) := ApiRequest(config, s, op.ip, op.done, op.answer, op.faults);
      if record.Some? && CheckL2(config, s, op.ip, op.now, op.done, op.answer, op.faults).asked {
        assert AllGenuine(config, ops, t);
        PutGenuine(config, ops, t, op.ip, record.value, op.done);
      }
    }
  }

  lemma CheckGenuine(config: Config, before: seq<Op>, op: Op)
    requires Sane(config) && op.Check? && ZERO_TIME < op.now <= op.done
    requires Distinct(After(config, before).l1) && AllGenuine(config, before, After(config, before))
    ensures var t := Step(config, After(config, before), op).state;
            Distinct(t.l1) && AllGenuine(config, before + [op], t)
  {
    var s, ops := After(config, before), before + [op];
    AllGenuineLater(config, before, op, s);
    if Step(config, s, op).asked && op.answer.Score? {
      WrittenNow(config, before, op, op.ip, ApiRecord(config, op.ip, op.answer.score, op.done));
    }
    TouchGenuine(config, ops, s, op.ip, op.now);
    var touched := s.(l1 := Touch(s.l1, op.ip, op.now));
    if Find(s.l1, op.ip).None? {
      CheckL2Genuine(config, before, op, touched);
    } else if Find(s.l1, op.ip).value.Expired(op.now) {
      TouchGenuine(config, ops, touched, op.ip, op.now);
      KeepGenuine(config, ops, touched.(l1 := Touch(touched.l1, op.ip, op.now)), NotAt(op.ip));
      CheckL2Genuine(config, before, op, CleanExpiredIP(touched, op.ip, op.now, op.faults));
    }
  }

  ghost predicate Timed(ops: seq<Op>) {
    forall i :: 0 <= i < |ops| ==> ZERO_TIME < ops[i].Begin() <= ops[i].End()
  }

  lemma GenuineTimes(config: Config, ops: seq<Op>, ip: IP, record: IPRecord)
    requires Sane(config) && Timed(ops) && Genuine(config, ops, ip, record)
    ensures record.ip == ip && record.checkedAt > ZERO_TIME && record.expiresAt > ZERO_TIME
  {
    var i :| 0 <= i < |ops| && WrittenAt(config, ops, i, ip, record);
    assert ops[i].Begin() > ZERO_TIME && ops[i].End() > ZERO_TIME;
    assert record.ip == record.(reported := false).ip && record.checkedAt == record.(reported := false).checkedAt
        && record.expiresAt == record.(reported := false).expiresAt;
  }

  lemma TripGenuine(config: Config, before: seq<Op>, op: Op)
    requires Sane(config) && op.ReportThreat? && ZERO_TIME < op.now
    requires Distinct(After(config, before).l1) && AllGenuine(config, before + [op], After(config, before))
    ensures var t := Trip(config, After(config, before), op.ip, op.parses, op.now, op.faults);
            Distinct(t.l1) && AllGenuine(config, before + [op], t)
  {
    var s := After(config, before);
    if Writes(s, op.ip, op.parses, op.faults) {
      var record := HoneyRecord(config, op.ip, op.now);
      WrittenNow(config, before, op, op.ip, record);
      PutGenuine(config, before + [op], s, op.ip, record, op.now);
    }
  }

  lemma ReportedGenuine(config: Config, ops: seq<Op>, s: State, ip: IP, now: Instant, delivered: bool, faults: Faults)
    requires Sane(config) && Timed(ops) && Distinct(s.l1) && AllGenuine(config, ops, s)
    ensures var t := Reported(config, s, ip, now, delivered, faults);
            Distinct(t.l1) && AllGenuine(config, ops, t)
  {
    if ip in s.l2 {
      var record := s.l2[ip].(reported := true);
      GenuineTimes(config, ops, ip, s.l2[ip]);
      GenuineMarked(config, ops, ip, s.l2[ip]);
      PutGenuine(config, ops, s, ip, record, now);
    }
  }

  lemma StepGenuine(config: Config, before: seq<Op>, op: Op)
    requires Sane(config) && Timed(before + [op])
    requires Distinct(After(config, before).l1) && AllGenuine(config, before, After(config, before))
    ensures var t := Step(config, After(config, before), op).state;
            Distinct(t.l1) && AllGenuine(config, before + [op], t)
  {
    var s, ops := After(config, before), before + [op];
    assert ops[|before|] == op;
    AllGenuineLater(config, before, op, s);
    match op
    case Check(_, _, _, _, _) => CheckGenuine(config, before, op);
    case ReportThreat(_, _, _, _) => TripGenuine(config, before, op);
    case Deliver(ip, now, delivered, faults) => ReportedGenuine(config, ops, s, ip, now, delivered, faults);
    case Cleanup(now, _) => KeepGenuine(config, ops, s, Unexpired(now));
  }

  // ---------- runs ----------

  /** Every record ever held in L1 or L2 is genuine. */
  lemma {:induction false} EveryRecordIsGenuine(config: Config, ops: seq<Op>)
    requires Sane(config) && Timed(ops)
    ensures Distinct(After(config, ops).l1)
    ensures AllGenuine(config, ops, After(config, ops))
  {
    if ops == [] {
    } else {
      var before, op := ops[..|ops| - 1], ops[|ops| - 1];
      assert before + [op] == ops;
      EveryRecordIsGenuine(config, before);
      StepGenuine(config, before, op);
    }
  }

  /** What a check's verdict rests on. */
  datatype Basis = FromL1(record: IPRecord) | FromL2(record: IPRecord) | FromApi(score: int) | FailedOpen

  /** `basis` accounts for the reply of the check `op` after the run `before`. */
  ghost predicate Founded(config: Config, before: seq<Op>, op: Op, basis: Basis)
    requires op.Check?
  {
    var s := After(config, before);
    var o := Step(config, s, op);
    match basis
    case FromL1(record) =>
      && Find(s.l1, op.ip) == Some(record) && op.now <= record.expiresAt && !o.asked
      && Genuine(config, before, op.ip, record)
      && o.reply == Verdict(op.ip, record.status == Threat, record.source)
    case FromL2(record) =>
      && op.ip in s.l2 && s.l2[op.ip] == record && op.now < record.expiresAt && !o.asked
      && Genuine(config, before, op.ip, record)
      && o.reply == Verdict(op.ip, record.status == Threat, record.source)
    case FromApi(score) =>
      o.asked && op.answer == Score(score) && o.reply == Verdict(op.ip, score >= config.threshold, AbuseIPDB)
    case FailedOpen =>
      && config.openOnError && o.reply == Verdict(op.ip, false, NoSource)
      && (forall ip :: ip in o.state.l2 ==> ip in s.l2 && o.state.l2[ip] == s.l2[ip])
  }

  /**
   * Freshness: in any run from empty stores, a verdict rests on a genuine record that has not
   * expired, or on the API's own answer, or is the fail-open verdict, which is never a threat and
   * leaves nothing behind.
   */
  lemma VerdictsAreFounded(config: Config, before: seq<Op>, op: Op) returns (basis: Basis)
    requires Sane(config) && 0 < config.threshold <= 100 && op.Check? && Timed(before)
    requires Step(config, After(config, before), op).reply.Verdict?
    ensures Founded(config, before, op, basis)
  {
    var s := After(config, before);
    EveryRecordIsGenuine(config, before);
    if Find(s.l1, op.ip).Some? && !Find(s.l1, op.ip).value.Expired(op.now) {
      GenuineStatus(config, before, op.ip, Find(s.l1, op.ip).value);
      basis := FromL1(Find(s.l1, op.ip).value);
    } else if GetByIp(s.l2, op.ip, op.now).Some? && !(Find(s.l1, op.ip).Some? && !op.faults.delete) {
      GenuineStatus(config, before, op.ip, s.l2[op.ip]);
      basis := FromL2(s.l2[op.ip]);
    } else if Step(config, s, op).asked && op.answer.Score? && !op.faults.write {
      basis := FromApi(op.answer.score);
    } else {
      basis := FailedOpen;
    }
  }
}
