/**
 * The objects behind the gate: repository, gauges, the AbuseIPDB threat source with its breaker
 * fields, the active defence service and the cleanup worker. Each method is proved to move the
 * state exactly as the function of the same operation in `Gate`.
 */
module ThreatSource {
  import opened Records
  import opened Recency
  import opened Table
  import opened CircuitBreaker
  import opened Gate
  import opened IpCache

  /** A query's result: `sql.ErrNoRows` is told apart from a real error. */
  datatype Query = Row(record: IPRecord) | NoRows | DbError

  class IPRepository {
    var rows: Rows
    const expirationTime: int

    constructor (expirationTime: int)
      ensures rows == map[] && this.expirationTime == expirationTime
    {
      rows := map[];
      this.expirationTime := expirationTime;
    }

    method GetByIp(ip: IP, now: Instant, fault: bool) returns (q: Query)
      ensures fault ==> q == DbError
      ensures !fault ==> q == match Table.GetByIp(rows, ip, now) case Some(r) => Row(r) case None => NoRows
    {
      if fault {
        return DbError;
      }
      if ip in rows && rows[ip].expiresAt > now {
        return Row(rows[ip]);
      }
      return NoRows;
    }

    method GetRecord(ip: IP, fault: bool) returns (q: Query)
      ensures fault ==> q == DbError
      ensures !fault ==> q == match Table.GetRecord(rows, ip) case Some(r) => Row(r) case None => NoRows
    {
      if fault {
        return DbError;
      }
      if ip in rows {
        return Row(rows[ip]);
      }
      return NoRows;
    }

    /** None stands for the error return; a failed write has no effect. */
    method Update(record: IPRecord, now: Instant, fault: bool) returns (saved: Option<IPRecord>)
      modifies this
      ensures fault ==> saved == None && rows == old(rows)
      ensures !fault ==> saved == Some(Saved(record, now, expirationTime))
      ensures !fault ==> rows == Table.Update(old(rows), record, now, expirationTime)
    {
      if fault {
        return None;
      }
      var checkedAt := record.checkedAt;
      if checkedAt == ZERO_TIME {
        checkedAt := now;
      }
      var expiresAt := record.expiresAt;
      if expiresAt == ZERO_TIME {
        expiresAt := now + expirationTime;
      }
      rows := rows[record.ip := record.(checkedAt := checkedAt, expiresAt := expiresAt)];
      saved := Some(rows[record.ip]);
    }

    method Delete(ip: IP, fault: bool) returns (ok: bool)
      modifies this
      ensures ok == !fault && rows == if fault then old(rows) else Table.Delete(old(rows), ip)
    {
      if !fault {
        rows := rows - {ip};
      }
      ok := !fault;
    }

    method DeleteExpired(cutoff: Instant, fault: bool) returns (ok: bool)
      modifies this
      ensures ok == !fault && rows == if fault then old(rows) else Table.DeleteExpired(old(rows), cutoff)
    {
      if !fault {
        rows := map ip | ip in rows && !(rows[ip].expiresAt <= cutoff) :: rows[ip];
      }
      ok := !fault;
    }

    method Count(fault: bool) returns (count: Option<nat>)
      ensures count == if fault then None else Some(|rows|)
    {
      count := if fault then None else Some(|rows|);
    }

    method ThreatCount(fault: bool) returns (count: Option<nat>)
      ensures count == if fault then None else Some(|ThreatRows(rows)|)
    {
      count := if fault then None else Some(|set ip | ip in rows && rows[ip].status == Threat|);
    }
  }

  class Metrics {
    var entities: int
    var threats: int

    constructor ()
    {
      entities, threats := 0, 0;
    }

    /** The gauge part of `cleanExpiredIP`: one row less, and one threat less if L1 held a threat. */
    method Forget(held: Option<IPRecord>)
      modifies this
      ensures entities == old(entities) - 1
      ensures threats == old(threats) - if held.Some? && held.value.status == Threat then 1 else 0
    {
      entities := entities - 1;
      if held.Some? && held.value.status == Threat {
        threats := threats - 1;
      }
    }

    /** The gauge part of `ReportThreat`, from the row read before the write. */
    method Learn(existing: Query)
      modifies this
      ensures entities == old(entities) + if existing.Row? then 0 else 1
      ensures threats == old(threats) + if existing.Row? && existing.record.status == Threat then 0 else 1
    {
      if !existing.Row? {
        entities := entities + 1;
        threats := threats + 1;
      } else if existing.record.status != Threat {
        threats := threats + 1;
      }
    }
  }

  /** `initializeMetrics`. */
  method InitializeMetrics(repo: IPRepository, metrics: Metrics, faults: Faults)
    modifies metrics
    ensures metrics.entities == if faults.count then old(metrics.entities) else |repo.rows|
    ensures metrics.threats == if faults.threatCount then old(metrics.threats) else |ThreatRows(repo.rows)|
  {
    var count := repo.Count(faults.count);
    if count.Some? {
      metrics.entities := count.value;
    }
    var threatCount := repo.ThreatCount(faults.threatCount);
    if threatCount.Some? {
      metrics.threats := threatCount.value;
    }
  }

  class AbuseIPDBThreatSource {
    const config: Config
    const repo: IPRepository
    const ipCache: IPCache
    const metrics: Metrics
    var cbFailures: nat
    var cbLastFailed: Instant

    constructor (config: Config, repo: IPRepository, metrics: Metrics)
      requires repo.expirationTime == config.ttl
      ensures Valid() && fresh(ipCache.Repr) && this.config == config && this.repo == repo && this.metrics == metrics
      ensures Model() == State([], repo.rows, FRESH, Gauges(metrics.entities, metrics.threats))
    {
      this.config, this.repo, this.metrics := config, repo, metrics;
      ipCache := new IPCache(config.maxSize);
      cbFailures, cbLastFailed := 0, ZERO_TIME;
    }

    ghost predicate Valid()
      reads this, ipCache, ipCache.Repr
    {
      && ipCache.Valid()
      && this !in ipCache.Repr && repo !in ipCache.Repr && metrics !in ipCache.Repr
      && ipCache.maxSize == config.maxSize
      && repo.expirationTime == config.ttl
    }

    ghost function Model(): State
      reads this, ipCache, repo, metrics
    {
      State(ipCache.Contents, repo.rows, Breaker(cbFailures, cbLastFailed),
            Gauges(metrics.entities, metrics.threats))
    }

    method AllowRequest(now: Instant) returns (allowed: bool)
      ensures allowed == Allows(Model().breaker, config.limits, now)
    {
      if cbFailures >= config.limits.maxRetries {
        if now - cbLastFailed < config.limits.coolDown {
          return false;
        }
      }
      return true;
    }

    method RecordSuccess()
      modifies this
      ensures Model() == old(Model()).(breaker := Succeeded(old(Model()).breaker))
    {
      cbFailures := 0;
    }

    method RecordFailure(now: Instant)
      modifies this
      ensures Model() == old(Model()).(breaker := Failed(old(Model()).breaker, now))
    {
      cbFailures := cbFailures + 1;
      cbLastFailed := now;
    }

    /** The cache's part of `cleanExpiredIP`; a read moves the entry to the front before it goes. */
    method Uncache(ip: IP, now: Instant) returns (record: Option<IPRecord>)
      requires Valid()
      modifies ipCache.Repr
      ensures Valid() && ipCache.Repr == old(ipCache.Repr)
      ensures record == Find(old(ipCache.Contents), ip)
      ensures ipCache.Contents == Without(Touch(old(ipCache.Contents), ip, now), ip)
    {
      record := ipCache.Get(ip, now);
      ipCache.Remove(ip);
    }

    method CleanExpiredIP(ip: IP, now: Instant, faults: Faults)
      requires Valid()
      modifies repo, metrics, ipCache.Repr
      ensures Valid() && ipCache.Repr == old(ipCache.Repr)
      ensures Model() == Gate.CleanExpiredIP(old(Model()), ip, now, faults)
    {
      var record := Uncache(ip, now);
      var ok := repo.Delete(ip, faults.delete);
      if ok {
        metrics.Forget(record);
      }
    }

    /** `abuseiddbRequest`; the API's answer is an input. */
    method AbuseIPDBRequest(ip: IP, done: Instant, answer: Answer, faults: Faults) returns (saved: Option<IPRecord>)
      requires repo.expirationTime == config.ttl
      modifies repo, metrics
      ensures (Model(), saved) == ApiRequest(config, old(Model()), ip, done, answer, faults)
    {
      if answer.NoAnswer? {
        return None;
      }
      var status := Safe;
      if answer.score >= config.threshold {
        status := Threat;
      }
      var record := IPRecord(ip, status, answer.score, AbuseIPDB, done, done + config.ttl, false);
      var existing := repo.GetRecord(ip, faults.existing);
      saved := repo.Update(record, done, faults.write);
      if saved.None? {
        return;
      }
      if !existing.Row? {
        metrics.entities := metrics.entities + 1;
        if status == Threat {
          metrics.threats := metrics.threats + 1;
        }
      } else if existing.record.status != Threat && status == Threat {
        metrics.threats := metrics.threats + 1;
      } else if existing.record.status == Threat && status != Threat {
        metrics.threats := metrics.threats - 1;
      }
    }

    method Check(ip: IP, now: Instant, done: Instant, answer: Answer, faults: Faults) returns (reply: Reply, asked: bool)
      requires Valid()
      modifies this, repo, metrics, ipCache.Repr
      ensures Valid() && fresh(ipCache.Repr - old(ipCache.Repr))
      ensures Outcome(Model(), reply, asked) == CheckIP(config, old(Model()), ip, now, done, answer, faults)
    {
      var cached := ipCache.Get(ip, now);
      if cached.Some? {
        if cached.value.expiresAt < now {
          CleanExpiredIP(ip, now, faults);
        } else {
          return Served(config, cached.value), false;
        }
      }
      reply, asked := CheckBelow(ip, now, done, answer, faults);
    }

    /** The rest of `Check`, below L1. */
    method CheckBelow(ip: IP, now: Instant, done: Instant, answer: Answer, faults: Faults) returns (reply: Reply, asked: bool)
      requires Valid()
      modifies this, repo, metrics, ipCache.Repr
      ensures Valid() && fresh(ipCache.Repr - old(ipCache.Repr))
      ensures Outcome(Model(), reply, asked) == CheckL2(config, old(Model()), ip, now, done, answer, faults)
    {
      var result := repo.GetByIp(ip, now, faults.read);
      if result.DbError? {
        return Error, false;
      }
      if result.Row? {
        ipCache.Set(ip, result.record, now);
        return Served(config, result.record), false;
      }
      var allowed := AllowRequest(now);
      if !allowed {
        if config.openOnError {
          return CreateResult(config, ip, 0, NoSource), false;
        }
        return Error, false;
      }
      var record := AbuseIPDBRequest(ip, done, answer, faults);
      if record.None? {
        RecordFailure(done);
        if config.openOnError {
          return CreateResult(config, ip, 0, NoSource), true;
        }
        return Error, true;
      }
      RecordSuccess();
      ipCache.Set(ip, record.value, done);
      return Served(config, record.value), true;
    }

    method CleanExpired(now: Instant)
      requires Valid()
      modifies ipCache.Repr
      ensures Valid() && ipCache.Repr == old(ipCache.Repr)
      ensures Model() == old(Model()).(l1 := Sweep(old(Model()).l1, now))
    {
      ipCache.RemoveExpired(now);
    }
  }

  /** One turn of `startCleanupWorker` over the table, the gauges and the source's cache. */
  method CleanupTurn(source: AbuseIPDBThreatSource, now: Instant, faults: Faults)
    requires source.Valid()
    modifies source.repo, source.metrics, source.ipCache.Repr
    ensures source.Valid() && source.ipCache.Repr == old(source.ipCache.Repr)
    ensures source.Model() == Cleaned(old(source.Model()), now, faults)
  {
    var ok := source.repo.DeleteExpired(now, faults.delete);
    if ok {
      InitializeMetrics(source.repo, source.metrics, faults);
    }
    source.CleanExpired(now);
  }

  /** What `ReportThreat` does once it gets past its checks, in terms of the row it read. */
  lemma TripWrites(config: Config, s: State, ip: IP, now: Instant, faults: Faults, existing: Query)
    requires !AlreadyReported(s, ip, faults)
    requires existing.Row? <==> !faults.existing && ip in s.l2
    requires existing.Row? ==> existing.record == s.l2[ip]
    ensures var t, record := Trip(config, s, ip, true, now, faults), HoneyRecord(config, ip, now);
            if faults.write then t == s
            else && t.l2 == Update(s.l2, record, now, config.ttl) && t.breaker == s.breaker
                 && t.gauges == Gauges(
                      s.gauges.entities + (if existing.Row? then 0 else 1),
                      s.gauges.threats + (if existing.Row? && existing.record.status == Threat then 0 else 1))
  {
  }

  /** The active defence service over the shared table and gauges and the caches it is given. */
  class DefenceService {
    const config: Config
    const db: IPRepository
    const caches: seq<IPCache>
    const metrics: Metrics
    /** There is an API client exactly when an API key is configured. */
    const hasClient: bool
    /** The objects behind the caches. */
    ghost var Repr: set<object>

    constructor (config: Config, db: IPRepository, caches: seq<IPCache>, metrics: Metrics, hasClient: bool,
                 ghost footprint: set<object>)
      requires db.expirationTime == config.ttl
      requires db !in footprint && metrics !in footprint
      requires forall c :: c in caches ==> c in footprint && c.Repr <= footprint && c.Valid() && c.maxSize == config.maxSize
      requires forall c, d :: c in caches && d in caches && c != d ==> c.Repr !! d.Repr
      requires forall i, j :: 0 <= i < j < |caches| ==> caches[i] != caches[j]
      ensures Valid() && Repr == footprint
      ensures this.config == config && this.db == db && this.caches == caches
      ensures this.metrics == metrics && this.hasClient == hasClient
    {
      this.config, this.db, this.caches, this.metrics := config, db, caches, metrics;
      this.hasClient := hasClient;
      Repr := footprint;
    }

    ghost predicate Valid()
      reads this, Repr
    {
      && this !in Repr && db !in Repr && metrics !in Repr
      && (forall c :: c in caches ==> c in Repr && c.Repr <= Repr && c.Valid() && c.maxSize == config.maxSize)
      && (forall c, d :: c in caches && d in caches && c != d ==> c.Repr !! d.Repr)
      && (forall i, j :: 0 <= i < j < |caches| ==> caches[i] != caches[j])
      && db.expirationTime == config.ttl
    }

    /** The stores as this service sees them, with one of its caches; it has no access to the breaker. */
    ghost function Model(l1: seq<Entry>, b: Breaker): State
      reads this, db, metrics
    {
      State(l1, db.rows, b, Gauges(metrics.entities, metrics.threats))
    }

    /** `Set` on one cache leaves the others alone. */
    method SetOne(cache: IPCache, ip: IP, record: IPRecord, now: Instant)
      requires Valid() && cache in caches
      modifies this, cache.Repr
      ensures Valid() && fresh(Repr - old(Repr))
      ensures cache.Contents == Put(old(cache.Contents), config.maxSize, ip, record, now)
      ensures forall c :: c in caches && c != cache ==> c.Contents == old(c.Contents)
    {
      assert forall c :: c in caches && c != cache ==> c in c.Repr && c.Repr !! cache.Repr;
      cache.Set(ip, record, now);
      assert forall c :: c in caches && c != cache ==> c.Repr == old(c.Repr) && c.Valid();
      Repr := Repr + cache.Repr;
    }

    /** The loops over the caches. */
    method SetAll(ip: IP, record: IPRecord, now: Instant)
      requires Valid()
      modifies this, Repr
      ensures Valid() && fresh(Repr - old(Repr))
      ensures forall c :: c in caches ==> c.Contents == Put(old(c.Contents), config.maxSize, ip, record, now)
    {
      for i := 0 to |caches|
        invariant Valid() && fresh(Repr - old(Repr))
        invariant forall j :: 0 <= j < i ==>
          caches[j].Contents == Put(old(caches[j].Contents), config.maxSize, ip, record, now)
        invariant forall j :: i <= j < |caches| ==> caches[j].Contents == old(caches[j].Contents)
      {
        var cache := caches[i];
        assert forall j :: 0 <= j < |caches| && j != i ==> caches[j] != cache;
        SetOne(cache, ip, record, now);
      }
    }

    /** `spawned` says whether the report is handed to a background task. */
    method ReportThreat(ip: IP, parses: bool, now: Instant, faults: Faults, ghost b: Breaker)
      returns (ok: bool, spawned: bool)
      requires Valid()
      modifies this, db, metrics, Repr
      ensures Valid() && fresh(Repr - old(Repr))
      ensures Model([], b) == Trip(config, old(Model([], b)), ip, parses, now, faults).(l1 := [])
      ensures forall c :: c in caches ==>
                c.Contents == Trip(config, old(Model(c.Contents, b)), ip, parses, now, faults).l1
      ensures spawned == (Writes(old(Model([], b)), ip, parses, faults) && config.autoReport && hasClient)
      ensures ok == (parses && (AlreadyReported(old(Model([], b)), ip, faults) || !faults.write))
    {
      if !parses {
        return false, false;
      }
      var existing := db.GetRecord(ip, faults.existing);
      if existing.Row? && existing.record.status == Threat && existing.record.reported {
        return true, false;
      }
      var expiresAt;
      if config.blocking.Permanent? {
        expiresAt := FOREVER;
      } else {
        expiresAt := now + config.blocking.duration;
      }
      var record := IPRecord(ip, Threat, 100, ActiveDefence, now, expiresAt, false);
      ok := Store(record, existing, now, faults.write);
      TripWrites(config, old(Model([], b)), ip, now, faults, existing);
      return ok, ok && config.autoReport && hasClient;
    }

    /** The write to the table, the caches and the gauges. */
    method Store(record: IPRecord, existing: Query, now: Instant, fault: bool) returns (ok: bool)
      requires Valid()
      modifies this, db, metrics, Repr
      ensures Valid() && fresh(Repr - old(Repr))
      ensures ok == !fault
      ensures !ok ==> db.rows == old(db.rows) && metrics.entities == old(metrics.entities) && metrics.threats == old(metrics.threats)
      ensures ok ==> db.rows == Table.Update(old(db.rows), record, now, config.ttl)
      ensures ok ==> metrics.entities == old(metrics.entities) + if existing.Row? then 0 else 1
      ensures ok ==> metrics.threats == old(metrics.threats) + if existing.Row? && existing.record.status == Threat then 0 else 1
      ensures forall c :: c in caches ==>
                c.Contents == (if ok then Put(old(c.Contents), config.maxSize, record.ip, record, now)
                                       else old(c.Contents))
    {
      var saved := db.Update(record, now, fault);
      if saved.None? {
        return false;
      }
      SetAll(record.ip, record, now);
      metrics.Learn(existing);
      return true;
    }

    /** The background report; `delivered` is the answer of `ReportIP`. */
    method ReportToAbuseIPDB(ip: IP, now: Instant, delivered: bool, faults: Faults, ghost b: Breaker)
      requires Valid()
      modifies this, db, Repr
      ensures Valid() && fresh(Repr - old(Repr))
      ensures Model([], b) == Reported(config, old(Model([], b)), ip, now, delivered, faults).(l1 := [])
      ensures forall c :: c in caches ==>
                c.Contents == Reported(config, old(Model(c.Contents, b)), ip, now, delivered, faults).l1
    {
      var found := db.GetRecord(ip, faults.existing);
      if !found.Row? || found.record.reported {
        return;
      }
      if !delivered {
        return;
      }
      var record := found.record.(reported := true);
      var saved := db.Update(record, now, faults.write);
      if saved.None? {
        return;
      }
      SetAll(ip, record, now);
    }
  }
}
