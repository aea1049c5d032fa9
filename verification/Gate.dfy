/**
 * One whole operation of the gate as a function of its state: the tiered check, the honeytoken
 * report, the background report and the cleanup turn. The external API, the clock and database
 * faults are inputs. The classes in `ThreatSource` are proved against these functions.
 */
module Gate {
  import opened Records
  import opened Recency
  import opened Table
  import opened CircuitBreaker

  datatype Blocking = Permanent | For(duration: int)

  datatype Config = Config(
    threshold: int,
    ttl: int,
    limits: Limits,
    openOnError: bool,
    maxSize: int,
    blocking: Blocking,
    autoReport: bool)

  /** 9999-12-31 23:59:59 UTC. */
  const FOREVER: Instant := 315537897599_000000000

  datatype Gauges = Gauges(entities: int, threats: int)

  datatype State = State(l1: seq<Entry>, l2: Rows, breaker: Breaker, gauges: Gauges)

  /** A new process over an empty table. */
  const EMPTY := State([], map[], FRESH, Gauges(0, 0))

  /** What the external API says about an address. */
  datatype Answer = Score(score: int) | NoAnswer

  /** Which database calls of the operation fail; a failing write has no effect. */
  datatype Faults = Faults(read: bool, delete: bool, existing: bool, write: bool, count: bool, threatCount: bool)

  const NO_FAULTS := Faults(false, false, false, false, false, false)

  datatype Reply = Verdict(ip: IP, isThreat: bool, source: Source) | Error | NoReply

  /** `asked` says whether the external API was asked for a score. */
  datatype Outcome = Outcome(state: State, reply: Reply, asked: bool)

  datatype Op =
    | Check(ip: IP, now: Instant, done: Instant, answer: Answer, faults: Faults)
    | ReportThreat(ip: IP, parses: bool, now: Instant, faults: Faults)
    | Deliver(ip: IP, now: Instant, delivered: bool, faults: Faults)
    | Cleanup(now: Instant, faults: Faults)
  {
    function Begin(): Instant { now }

    /** A check may wait for the API; everything else happens at one instant. */
    function End(): Instant { if Check? then done else now }
  }

  // ---------- the tiered check ----------

  /** `createResult`: the verdict is recomputed from the score. */
  function CreateResult(config: Config, ip: IP, score: int, source: Source): Reply {
    Verdict(ip, score >= config.threshold, source)
  }

  function Served(config: Config, record: IPRecord): Reply {
    CreateResult(config, record.ip, record.score, record.source)
  }

  function Fallback(config: Config, ip: IP): Reply {
    if config.openOnError then CreateResult(config, ip, 0, NoSource) else Error
  }

  function ApiRecord(config: Config, ip: IP, score: int, done: Instant): IPRecord {
    IPRecord(ip, if score >= config.threshold then Threat else Safe, score, AbuseIPDB,
             done, done + config.ttl, false)
  }

  /** `cleanExpiredIP`. */
  function CleanExpiredIP(s: State, ip: IP, now: Instant, faults: Faults): State {
    var found := Find(s.l1, ip);
    var l1 := Without(Touch(s.l1, ip, now), ip);
    if faults.delete then s.(l1 := l1)
    else
      var threat := if found.Some? && found.value.status == Threat then 1 else 0;
      s.(l1 := l1, l2 := Delete(s.l2, ip), gauges := Gauges(s.gauges.entities - 1, s.gauges.threats - threat))
  }

  /** `abuseiddbRequest`: None stands for its error return. */
  function ApiRequest(config: Config, s: State, ip: IP, done: Instant, answer: Answer, faults: Faults): (State, Option<IPRecord>) {
    if answer.NoAnswer? || faults.write then (s, None)
    else
      var record := ApiRecord(config, ip, answer.score, done);
      var existing := if faults.existing then None else GetRecord(s.l2, ip);
      (s.(l2 := Update(s.l2, record, done, config.ttl), gauges := Recounted(s.gauges, existing, record)),
       Some(Saved(record, done, config.ttl)))
  }

  /** The gauge arithmetic around an `Update`, from the row read just before it. */
  function Recounted(g: Gauges, existing: Option<IPRecord>, record: IPRecord): Gauges {
    match existing
    case None => Gauges(g.entities + 1, g.threats + if record.status == Threat then 1 else 0)
    case Some(row) =>
      if row.status != Threat && record.status == Threat then g.(threats := g.threats + 1)
      else if row.status == Threat && record.status != Threat then g.(threats := g.threats - 1)
      else g
  }

  /** The check below L1: the table, then the breaker and the API. */
  function CheckL2(config: Config, s: State, ip: IP, now: Instant, done: Instant, answer: Answer, faults: Faults): Outcome {
    if faults.read then Outcome(s, Error, false)
    else
      match GetByIp(s.l2, ip, now)
      case Some(row) =>
        Outcome(s.(l1 := Put(s.l1, config.maxSize, ip, row, now)), Served(config, row), false)
      case None =>
        if !Allows(s.breaker, config.limits, now) then Outcome(s, Fallback(config, ip), false)
        else
          var (t, record) := ApiRequest(config, s, ip, done, answer, faults);
          match record
          case None => Outcome(t.(breaker := Failed(t.breaker, done)), Fallback(config, ip), true)
          case Some(r) =>
            Outcome(t.(breaker := Succeeded(t.breaker), l1 := Put(t.l1, config.maxSize, ip, r, done)),
                    Served(config, r), true)
  }

  /** `Check`. */
  function CheckIP(config: Config, s: State, ip: IP, now: Instant, done: Instant, answer: Answer, faults: Faults): Outcome {
    var touched := s.(l1 := Touch(s.l1, ip, now));
    match Find(s.l1, ip)
    case None => CheckL2(config, touched, ip, now, done, answer, faults)
    case Some(record) =>
      if record.Expired(now)
      then CheckL2(config, CleanExpiredIP(touched, ip, now, faults), ip, now, done, answer, faults)
      else Outcome(touched, Served(config, record), false)
  }

  // ---------- active defence ----------

  function BlockedUntil(config: Config, now: Instant): Instant {
    match config.blocking
    case Permanent => FOREVER
    case For(duration) => now + duration
  }

  function HoneyRecord(config: Config, ip: IP, now: Instant): IPRecord {
    IPRecord(ip, Threat, 100, ActiveDefence, now, BlockedUntil(config, now), false)
  }

  /** `ReportThreat` returns early on a threat row that is already reported, even an expired one. */
  predicate AlreadyReported(s: State, ip: IP, faults: Faults) {
    !faults.existing && ip in s.l2 && s.l2[ip].status == Threat && s.l2[ip].reported
  }

  /** Whether `ReportThreat` gets past its checks to the write, and the write succeeds. */
  predicate Writes(s: State, ip: IP, parses: bool, faults: Faults) {
    parses && !AlreadyReported(s, ip, faults) && !faults.write
  }

  /** `ReportThreat` up to the point where it hands over to the background report. */
  function Trip(config: Config, s: State, ip: IP, parses: bool, now: Instant, faults: Faults): State {
    if !Writes(s, ip, parses, faults) then s
    else
      var record := HoneyRecord(config, ip, now);
      var existing := if faults.existing then None else GetRecord(s.l2, ip);
      s.(l2 := Update(s.l2, record, now, config.ttl),
         l1 := Put(s.l1, config.maxSize, ip, record, now),
         gauges := Recounted(s.gauges, existing, record))
  }

  /** The background report as one step: read, ask the API to take the report, mark. */
  function Reported(config: Config, s: State, ip: IP, now: Instant, delivered: bool, faults: Faults): State {
    if faults.existing || ip !in s.l2 || s.l2[ip].reported || !delivered || faults.write then s
    else
      var record := s.l2[ip].(reported := true);
      s.(l2 := Update(s.l2, record, now, config.ttl), l1 := Put(s.l1, config.maxSize, ip, record, now))
  }

  // ---------- the cleanup worker ----------

  /** One turn of `startCleanupWorker`. */
  function Cleaned(s: State, now: Instant, faults: Faults): State {
    var l2 := if faults.delete then s.l2 else DeleteExpired(s.l2, now);
    State(Sweep(s.l1, now), l2, s.breaker,
          if faults.delete then s.gauges
          else Gauges(if faults.count then s.gauges.entities else |l2|,
                      if faults.threatCount then s.gauges.threats else |ThreatRows(l2)|))
  }

  // ---------- runs ----------

  function Step(config: Config, s: State, op: Op): Outcome {
    match op
    case Check(ip, now, done, answer, faults) => CheckIP(config, s, ip, now, done, answer, faults)
    case ReportThreat(ip, parses, now, faults) => Outcome(Trip(config, s, ip, parses, now, faults), NoReply, false)
    case Deliver(ip, now, delivered, faults) => Outcome(Reported(config, s, ip, now, delivered, faults), NoReply, false)
    case Cleanup(now, faults) => Outcome(Cleaned(s, now, faults), NoReply, false)
  }

  function Run(config: Config, s: State, ops: seq<Op>): State
    decreases |ops|
  {
    if ops == [] then s else Run(config, Step(config, s, ops[0]).state, ops[1..])
  }

  /** What callers and the API see of a run: the reply and the API call of each operation. */
  function Visible(config: Config, s: State, ops: seq<Op>): seq<(Reply, bool)>
    decreases |ops|
  {
    if ops == [] then []
    else
      var o := Step(config, s, ops[0]);
      [(o.reply, o.asked)] + Visible(config, o.state, ops[1..])
  }

  /** The clock is past Go's zero time and does not go back, within operations or between them. */
  ghost predicate Ordered(ops: seq<Op>, clock: Instant) {
    && clock > ZERO_TIME
    && (ops != [] ==> clock <= ops[0].Begin() <= ops[0].End() && Ordered(ops[1..], ops[0].End()))
  }

  /** Durations are not negative; the rest of the configuration is arbitrary. */
  predicate Sane(config: Config) {
    config.ttl >= 0 && (config.blocking.For? ==> config.blocking.duration >= 0)
  }
}
