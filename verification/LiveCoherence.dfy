/**
 * The stores under interleaving. Checks, reports, background reports and the cleanup worker are
 * split at every access to a shared store; steps of different addresses and of the worker
 * interleave freely, while one address has one operation in flight. Whenever an address has none,
 * an unexpired L1 entry for it is its row in L2.
 */
module LiveCoherence {
  import opened Records
  import opened Recency
  import opened Table
  import opened CircuitBreaker
  import opened Gate

  /** Where an operation stands: the next access it makes, and what it carries there. */
  datatype Task =
    | Idle
    // Check
    | Rereading                        // `cleanExpiredIP`: IPCache.Get
    | Removing                         // IPCache.Remove
    | Deleting                         // Repo.Delete
    | Reading                          // Repo.GetByIp
    | Filling(row: IPRecord)           // IPCache.Set of the row
    | Asking                           // breaker and API
    | Saving(record: IPRecord)         // Repo.Update
    | Caching(record: IPRecord)        // IPCache.Set of the saved record
    // ReportThreat
    | Deciding                         // GetRecord
    | Recording(record: IPRecord)      // Update
    | Publishing(record: IPRecord)     // caches' Set
    // background report
    | Fetching                         // GetRecord
    | Delivering(record: IPRecord)     // ReportIP
    | Marking(record: IPRecord)        // Update
    | Refreshing(record: IPRecord)     // caches' Set

  datatype Worker = Resting | Woken(cutoff: Instant) | Sweeping(cutoff: Instant)

  datatype World = World(l1: seq<Entry>, l2: Rows, clock: Instant, tasks: map<IP, Task>, worker: Worker)

  /** The outcome the environment picks for a step: a database fault, or what breaker and API say. */
  datatype Choice = Choice(fault: bool, admitted: bool, answer: Answer)

  datatype Event =
    | Tick(now: Instant)
    | StartCheck(ip: IP)
    | StartReport(ip: IP)
    | StartDelivery(ip: IP)
    | Advance(ip: IP, choice: Choice)
    | Work(fault: bool)

  function TaskOf(w: World, ip: IP): Task {
    if ip in w.tasks then w.tasks[ip] else Idle
  }

  function Becomes(w: World, ip: IP, task: Task): World {
    w.(tasks := w.tasks[ip := task])
  }

  /** The first step of `Check`: look in L1 and compare the expiry. */
  function Begin(w: World, ip: IP): World {
    var touched := w.(l1 := Touch(w.l1, ip, w.clock));
    match Find(w.l1, ip)
    case None => Becomes(touched, ip, Reading)
    case Some(record) => if record.Expired(w.clock) then Becomes(touched, ip, Rereading) else touched
  }

  /** The next step of the operation in flight on `ip`. */
  function Continue(config: Config, w: World, ip: IP, choice: Choice): World {
    match TaskOf(w, ip)
    case Idle => w
    case Rereading => Becomes(w.(l1 := Touch(w.l1, ip, w.clock)), ip, Removing)
    case Removing => Becomes(w.(l1 := Without(w.l1, ip)), ip, Deleting)
    case Deleting => Becomes(if choice.fault then w else w.(l2 := Delete(w.l2, ip)), ip, Reading)
    case Reading =>
      if choice.fault then Becomes(w, ip, Idle)
      else (match GetByIp(w.l2, ip, w.clock)
            case Some(row) => Becomes(w, ip, Filling(row))
            case None => Becomes(w, ip, Asking))
    case Filling(row) => Becomes(w.(l1 := Put(w.l1, config.maxSize, ip, row, w.clock)), ip, Idle)
    case Asking =>
      if choice.admitted && choice.answer.Score?
      then Becomes(w, ip, Saving(ApiRecord(config, ip, choice.answer.score, w.clock)))
      else Becomes(w, ip, Idle)
    case Saving(record) =>
      if choice.fault then Becomes(w, ip, Idle)
      else Becomes(w.(l2 := Update(w.l2, record, w.clock, config.ttl)), ip, Caching(Saved(record, w.clock, config.ttl)))
    case Caching(record) => Becomes(w.(l1 := Put(w.l1, config.maxSize, ip, record, w.clock)), ip, Idle)
    case Deciding =>
      if !choice.fault && ip in w.l2 && w.l2[ip].status == Threat && w.l2[ip].reported
      then Becomes(w, ip, Idle)
      else Becomes(w, ip, Recording(HoneyRecord(config, ip, w.clock)))
    case Recording(record) =>
      if choice.fault then Becomes(w, ip, Idle)
      else Becomes(w.(l2 := Update(w.l2, record, w.clock, config.ttl)), ip, Publishing(record))
    case Publishing(record) => Becomes(w.(l1 := Put(w.l1, config.maxSize, ip, record, w.clock)), ip, Idle)
    case Fetching =>
      if choice.fault || ip !in w.l2 || w.l2[ip].reported then Becomes(w, ip, Idle)
      else Becomes(w, ip, Delivering(w.l2[ip]))
    case Delivering(record) => Becomes(w, ip, if choice.admitted then Marking(record.(reported := true)) else Idle)
    case Marking(record) =>
      if choice.fault then Becomes(w, ip, Idle)
      else Becomes(w.(l2 := Update(w.l2, record, w.clock, config.ttl)), ip, Refreshing(record))
    case Refreshing(record) => Becomes(w.(l1 := Put(w.l1, config.maxSize, ip, record, w.clock)), ip, Idle)
  }

  /** The cleanup worker takes its cutoff, deletes rows, then sweeps the cache with the same cutoff. */
  function Worked(w: World, fault: bool): World {
    match w.worker
    case Resting => w.(worker := Woken(w.clock))
    case Woken(cutoff) => w.(l2 := if fault then w.l2 else DeleteExpired(w.l2, cutoff), worker := Sweeping(cutoff))
    case Sweeping(cutoff) => w.(l1 := Sweep(w.l1, cutoff), worker := Resting)
  }

  /** One event; an operation starts only when its address has none in flight. */
  function Next(config: Config, w: World, e: Event): World {
    match e
    case Tick(now) => if w.clock <= now then w.(clock := now) else w
    case StartCheck(ip) => if TaskOf(w, ip) == Idle then Begin(w, ip) else w
    case StartReport(ip) => if TaskOf(w, ip) == Idle then Becomes(w, ip, Deciding) else w
    case StartDelivery(ip) => if TaskOf(w, ip) == Idle then Becomes(w, ip, Fetching) else w
    case Advance(ip, choice) => Continue(config, w, ip, choice)
    case Work(fault) => Worked(w, fault)
  }

  function Final(config: Config, w: World, events: seq<Event>): World
    decreases |events|
  {
    if events == [] then w else Final(config, Next(config, w, events[0]), events[1..])
  }

  // ---------- the invariant ----------

  predicate Proper(ip: IP, record: IPRecord) {
    record.ip == ip && record.checkedAt != ZERO_TIME && record.expiresAt != ZERO_TIME
  }

  /** While live, `record` is the row of `ip`. */
  predicate RowIs(w: World, ip: IP, record: IPRecord) {
    record.Live(w.clock) ==> ip in w.l2 && w.l2[ip] == record
  }

  predicate EntryIsRow(w: World, ip: IP) {
    Find(w.l1, ip).Some? ==> RowIs(w, ip, Find(w.l1, ip).value)
  }

  predicate NoEntry(w: World, ip: IP) {
    Find(w.l1, ip).None?
  }

  /** What each point of an operation may rely on. */
  predicate Good(w: World, ip: IP) {
    match TaskOf(w, ip)
    case Idle => EntryIsRow(w, ip)
    case Rereading => EntryIsRow(w, ip)
    case Removing => EntryIsRow(w, ip)
    case Deleting => NoEntry(w, ip)
    case Reading => NoEntry(w, ip)
    case Asking => NoEntry(w, ip)
    case Saving(record) => NoEntry(w, ip) && Proper(ip, record)
    case Filling(row) => NoEntry(w, ip) && RowIs(w, ip, row)
    case Caching(record) => NoEntry(w, ip) && RowIs(w, ip, record)
    case Deciding => EntryIsRow(w, ip)
    case Recording(record) => EntryIsRow(w, ip) && Proper(ip, record)
    case Publishing(record) => RowIs(w, ip, record)
    case Fetching => EntryIsRow(w, ip)
    case Delivering(record) => EntryIsRow(w, ip) && Proper(ip, record)
    case Marking(record) => EntryIsRow(w, ip) && Proper(ip, record)
    case Refreshing(record) => RowIs(w, ip, record)
  }

  ghost predicate Shape(w: World) {
    && Distinct(w.l1) && Stored(w.l2)
    && w.clock > ZERO_TIME
    && (!w.worker.Resting? ==> w.worker.cutoff <= w.clock)
  }

  ghost predicate Inv(w: World) {
    Shape(w) && forall ip :: Good(w, ip)
  }

  /** What an event may do to an address it does not belong to: evict, expire, let time pass. */
  ghost predicate Spares(w: World, t: World, ip: IP) {
    && w.clock <= t.clock
    && TaskOf(t, ip) == TaskOf(w, ip)
    && (Find(t.l1, ip).Some? ==> Find(t.l1, ip) == Find(w.l1, ip))
    && (ip in w.l2 && w.l2[ip].Live(t.clock) ==> ip in t.l2 && t.l2[ip] == w.l2[ip])
  }

  lemma SparedStaysGood(w: World, t: World, ip: IP)
    requires Good(w, ip) && Spares(w, t, ip)
    ensures Good(t, ip)
  {
  }

  lemma BeginKeepsInv(w: World, ip: IP)
    requires Inv(w) && TaskOf(w, ip) == Idle
    ensures Inv(Begin(w, ip))
  {
    TouchEverywhere(w.l1, ip, w.clock);
    var t := Begin(w, ip);
    assert Good(w, ip);
    forall a
      ensures Good(t, a)
    {
      if a != ip {
        assert Spares(w, t, a);
        SparedStaysGood(w, t, a);
      }
    }
  }

  /** A step's effect on its own address and on the rest of the world. */
  ghost predicate StepsWell(config: Config, w: World, ip: IP, choice: Choice) {
    var t := Continue(config, w, ip, choice);
    Shape(t) && Good(t, ip) && forall a :: a != ip ==> Spares(w, t, a)
  }

  lemma TableStepIsGood(config: Config, w: World, ip: IP, choice: Choice)
    requires Sane(config) && Shape(w) && Good(w, ip)
    requires var task := TaskOf(w, ip); task.Saving? || task.Recording? || task.Marking? || task.Deleting?
    ensures StepsWell(config, w, ip, choice)
  {
  }

  lemma CacheStepIsGood(config: Config, w: World, ip: IP, choice: Choice)
    requires Sane(config) && Shape(w) && Good(w, ip)
    requires var task := TaskOf(w, ip);
             task.Filling? || task.Caching? || task.Publishing? || task.Refreshing?
    ensures StepsWell(config, w, ip, choice)
  {
    var task := TaskOf(w, ip);
    PutEverywhere(w.l1, config.maxSize, ip, if task.Filling? then task.row else task.record, w.clock);
  }

  lemma RemovalStepIsGood(config: Config, w: World, ip: IP, choice: Choice)
    requires Shape(w) && Good(w, ip)
    requires TaskOf(w, ip) == Rereading || TaskOf(w, ip) == Removing
    ensures StepsWell(config, w, ip, choice)
  {
    TouchEverywhere(w.l1, ip, w.clock);
    WithoutEverywhere(w.l1, ip);
  }

  /** Steps that only read, or wait for the API. */
  lemma QuietStepIsGood(config: Config, w: World, ip: IP, choice: Choice)
    requires Sane(config) && Shape(w) && Good(w, ip)
    requires var task := TaskOf(w, ip);
             task.Idle? || task.Reading? || task.Asking? || task.Deciding? || task.Fetching? || task.Delivering?
    ensures StepsWell(config, w, ip, choice)
  {
  }

  lemma ContinueIsGood(config: Config, w: World, ip: IP, choice: Choice)
    requires Sane(config) && Shape(w) && Good(w, ip)
    ensures StepsWell(config, w, ip, choice)
  {
    var task := TaskOf(w, ip);
    if task.Saving? || task.Recording? || task.Marking? || task.Deleting? {
      TableStepIsGood(config, w, ip, choice);
    } else if task.Filling? || task.Caching? || task.Publishing? || task.Refreshing? {
      CacheStepIsGood(config, w, ip, choice);
    } else if task.Rereading? || task.Removing? {
      RemovalStepIsGood(config, w, ip, choice);
    } else {
      QuietStepIsGood(config, w, ip, choice);
    }
  }

  lemma ContinueKeepsInv(config: Config, w: World, ip: IP, choice: Choice)
    requires Sane(config) && Inv(w)
    ensures Inv(Continue(config, w, ip, choice))
  {
    assert Good(w, ip);
    ContinueIsGood(config, w, ip, choice);
    var t := Continue(config, w, ip, choice);
    forall a
      ensures Good(t, a)
    {
      if a != ip {
        assert Good(w, a);
        SparedStaysGood(w, t, a);
      }
    }
  }

  lemma WorkedKeepsInv(w: World, fault: bool)
    requires Inv(w)
    ensures Inv(Worked(w, fault))
  {
    var t := Worked(w, fault);
    if w.worker.Sweeping? {
      SweepEverywhere(w.l1, w.worker.cutoff);
    }
    forall a
      ensures Good(t, a)
    {
      assert Good(w, a) && Spares(w, t, a);
      SparedStaysGood(w, t, a);
    }
  }

  lemma NextKeepsInv(config: Config, w: World, e: Event)
    requires Sane(config) && Inv(w)
    ensures Inv(Next(config, w, e))
  {
    match e
    case Tick(now) =>
      var t := Next(config, w, e);
      forall a
        ensures Good(t, a)
      {
        assert Good(w, a) && Spares(w, t, a);
        SparedStaysGood(w, t, a);
      }
    case StartCheck(ip) =>
      if TaskOf(w, ip) == Idle {
        BeginKeepsInv(w, ip);
      }
    case StartReport(ip) => StartKeepsInv(w, ip, Deciding);
    case StartDelivery(ip) => StartKeepsInv(w, ip, Fetching);
    case Advance(ip, choice) => ContinueKeepsInv(config, w, ip, choice);
    case Work(fault) => WorkedKeepsInv(w, fault);
  }

  lemma StartKeepsInv(w: World, ip: IP, task: Task)
    requires Inv(w) && (task == Deciding || task == Fetching)
    ensures TaskOf(w, ip) == Idle ==> Inv(Becomes(w, ip, task))
  {
    if TaskOf(w, ip) == Idle {
      var t := Becomes(w, ip, task);
      assert Good(w, ip);
      forall a
        ensures Good(t, a)
      {
        if a != ip {
          assert Good(w, a) && Spares(w, t, a);
          SparedStaysGood(w, t, a);
        }
      }
    }
  }

  /** The event is a step of an operation on `ip`. */
  predicate Belongs(e: Event, ip: IP) {
    (e.StartCheck? || e.StartReport? || e.StartDelivery? || e.Advance?) && e.ip == ip
  }

  /** Steps of other addresses, of the clock and of the worker at most evict or expire. */
  lemma NextSpares(config: Config, w: World, e: Event, ip: IP)
    requires Sane(config) && Inv(w) && !Belongs(e, ip)
    ensures Spares(w, Next(config, w, e), ip)
  {
    match e
    case StartCheck(other) => TouchEverywhere(w.l1, other, w.clock);
    case Advance(other, choice) =>
      assert Good(w, other);
      ContinueIsGood(config, w, other, choice);
    case Work(_) =>
      if w.worker.Sweeping? {
        SweepEverywhere(w.l1, w.worker.cutoff);
      }
    case _ =>
  }

  /** A process that has just started: an empty cache over the table it finds. */
  function Started(rows: Rows, clock: Instant): World {
    World([], rows, clock, map[], Resting)
  }

  lemma {:induction false} RunKeepsInv(config: Config, w: World, events: seq<Event>)
    requires Sane(config) && Inv(w)
    ensures Inv(Final(config, w, events))
    decreases |events|
  {
    if events == [] {
    } else {
      NextKeepsInv(config, w, events[0]);
      RunKeepsInv(config, Next(config, w, events[0]), events[1..]);
    }
  }

  /**
   * Live coherence: after any interleaving, with any faults, answers and evictions, an address with
   * no operation in flight whose L1 entry has not expired has the identical record in L2.
   */
  lemma LiveEntriesAreRows(config: Config, rows: Rows, clock: Instant, events: seq<Event>, ip: IP)
    requires Sane(config) && Stored(rows) && clock > ZERO_TIME
    ensures var w := Final(config, Started(rows, clock), events);
            TaskOf(w, ip) == Idle && Find(w.l1, ip).Some? && Find(w.l1, ip).value.Live(w.clock)
            ==> ip in w.l2 && w.l2[ip] == Find(w.l1, ip).value
  {
    var w := Final(config, Started(rows, clock), events);
    RunKeepsInv(config, Started(rows, clock), events);
    assert Good(w, ip);
  }

  // ---------- the same operations as in `Gate` ----------

  /** The stores of `w`, dressed as a state of the serial model. */
  function Dressed(w: World, breaker: Breaker): State {
    State(w.l1, w.l2, breaker, Gauges(0, 0))
  }

  /** `t` is `w` with the stores of `s`, at `clock`, and nothing in flight for `ip`. */
  ghost predicate Reaches(w: World, t: World, ip: IP, clock: Instant, s: State) {
    && t.l1 == s.l1 && t.l2 == s.l2 && t.clock == clock && t.worker == w.worker
    && TaskOf(t, ip) == Idle
    && forall a :: a != ip ==> TaskOf(t, a) == TaskOf(w, a)
  }

  lemma FinalStep(config: Config, w: World, e: Event, rest: seq<Event>)
    ensures Final(config, w, [e] + rest) == Final(config, Next(config, w, e), rest)
  {
    assert ([e] + rest)[1..] == rest;
  }

  lemma TwoSteps(config: Config, w: World, a: Event, b: Event)
    ensures Final(config, w, [a] + ([b] + [])) == Next(config, Next(config, w, a), b)
  {
    FinalStep(config, w, a, [b] + []);
    FinalStep(config, Next(config, w, a), b, []);
  }

  /** Saving and caching the API's record; after a failed save the second step does nothing. */
  lemma AtomicSave(config: Config, w: World, ip: IP, record: IPRecord, fault: bool)
    requires TaskOf(w, ip) == Saving(record) && record.ip == ip
    ensures var save := Advance(ip, Choice(fault, true, NoAnswer));
            var l2 := Update(w.l2, record, w.clock, config.ttl);
            var s := if fault then State(w.l1, w.l2, FRESH, Gauges(0, 0))
                     else State(Put(w.l1, config.maxSize, ip, l2[ip], w.clock), l2, FRESH, Gauges(0, 0));
            Reaches(w, Next(config, Next(config, w, save), save), ip, w.clock, s)
  {
  }

  /** The API part of a check: the answer comes at `done`. */
  lemma AtomicAsk(config: Config, w: World, ip: IP, breaker: Breaker, done: Instant, answer: Answer, faults: Faults)
    returns (events: seq<Event>)
    requires TaskOf(w, ip) == Asking && !faults.read && GetByIp(w.l2, ip, w.clock).None? && w.clock <= done
    ensures Reaches(w, Final(config, w, events), ip, done,
                    CheckL2(config, Dressed(w, breaker), ip, w.clock, done, answer, faults).state)
  {
    var ask := Advance(ip, Choice(false, Allows(breaker, config.limits, w.clock), answer));
    var save := Advance(ip, Choice(faults.write, true, NoAnswer));
    var w1 := Next(config, w, Tick(done));
    var w2 := Next(config, w1, ask);
    var rest := [];
    if TaskOf(w2, ip).Saving? {
      rest := [save] + ([save] + []);
      AtomicSave(config, w2, ip, ApiRecord(config, ip, answer.score, done), faults.write);
      TwoSteps(config, w2, save, save);
    }
    FinalStep(config, w1, ask, rest);
    FinalStep(config, w, Tick(done), [ask] + rest);
    events := [Tick(done)] + ([ask] + rest);
  }

  /** An uninterrupted check below L1 does what the serial model says. */
  lemma AtomicCheckBelow(config: Config, w: World, ip: IP, breaker: Breaker, done: Instant, answer: Answer, faults: Faults)
    returns (events: seq<Event>)
    requires TaskOf(w, ip) == Reading && w.clock <= done
    ensures Reaches(w, Final(config, w, events), ip, done,
                    CheckL2(config, Dressed(w, breaker), ip, w.clock, done, answer, faults).state)
  {
    var read := Advance(ip, Choice(faults.read, true, NoAnswer));
    var w1 := Next(config, w, read);
    var rest := [Tick(done)] + [];
    if TaskOf(w1, ip).Filling? {
      rest := [read] + ([Tick(done)] + []);
      TwoSteps(config, w1, read, Tick(done));
    } else if TaskOf(w1, ip) == Asking {
      rest := AtomicAsk(config, w1, ip, breaker, done, answer, faults);
    } else {
      FinalStep(config, w1, Tick(done), []);
    }
    FinalStep(config, w, read, rest);
    events := [read] + rest;
  }

  /** The removal of an expired entry. */
  lemma AtomicRemoval(config: Config, w: World, ip: IP, breaker: Breaker, faults: Faults) returns (events: seq<Event>)
    requires TaskOf(w, ip) == Rereading
    ensures var t := Final(config, w, events);
            && Dressed(t, breaker) == CleanExpiredIP(Dressed(w, breaker), ip, w.clock, faults).(gauges := Gauges(0, 0))
            && t.clock == w.clock && t.worker == w.worker && t.tasks == w.tasks[ip := Reading]
  {
    var go := Advance(ip, Choice(faults.delete, true, NoAnswer));
    TwoSteps(config, Next(config, w, go), go, go);
    events := [go] + ([go] + ([go] + []));
    FinalStep(config, w, go, [go] + ([go] + []));
  }

  lemma {:induction false} FinalAppend(config: Config, w: World, a: seq<Event>, b: seq<Event>)
    ensures Final(config, w, a + b) == Final(config, Final(config, w, a), b)
    decreases |a|
  {
    if a == [] {
      assert a + b == b;
    } else {
      assert (a + b)[1..] == a[1..] + b;
      FinalAppend(config, Next(config, w, a[0]), a[1..], b);
    }
  }

  /** The rest of a check that found an expired entry. */
  lemma AtomicMiss(config: Config, w: World, ip: IP, breaker: Breaker, done: Instant, answer: Answer, faults: Faults)
    returns (events: seq<Event>)
    requires TaskOf(w, ip) == Rereading && w.clock <= done
    ensures var s := CleanExpiredIP(Dressed(w, breaker), ip, w.clock, faults);
            Reaches(w, Final(config, w, events), ip, done, CheckL2(config, s, ip, w.clock, done, answer, faults).state)
  {
    var removal := AtomicRemoval(config, w, ip, breaker, faults);
    var below := AtomicCheckBelow(config, Final(config, w, removal), ip, breaker, done, answer, faults);
    FinalAppend(config, w, removal, below);
    BelowIgnoresGauges(config, w, ip, breaker, done, answer, faults);
    events := removal + below;
  }

  /** An uninterrupted check, with any time for the API to answer, is the serial check of `Gate`. */
  lemma AtomicCheck(config: Config, w: World, ip: IP, breaker: Breaker, done: Instant, answer: Answer, faults: Faults)
    returns (events: seq<Event>)
    requires TaskOf(w, ip) == Idle && w.clock <= done
    ensures Reaches(w, Final(config, w, events), ip, done,
                    CheckIP(config, Dressed(w, breaker), ip, w.clock, done, answer, faults).state)
  {
    var w1 := Next(config, w, StartCheck(ip));
    var rest := [Tick(done)] + [];
    if TaskOf(w1, ip) == Reading {
      rest := AtomicCheckBelow(config, w1, ip, breaker, done, answer, faults);
    } else if TaskOf(w1, ip) == Rereading {
      rest := AtomicMiss(config, w1, ip, breaker, done, answer, faults);
    } else {
      FinalStep(config, w1, Tick(done), []);
    }
    FinalStep(config, w, StartCheck(ip), rest);
    events := [StartCheck(ip)] + rest;
  }

  /** The gauges never influence the stores. */
  lemma BelowIgnoresGauges(config: Config, w: World, ip: IP, breaker: Breaker, done: Instant, answer: Answer, faults: Faults)
    ensures var s := CleanExpiredIP(Dressed(w, breaker), ip, w.clock, faults);
            var a := CheckL2(config, s, ip, w.clock, done, answer, faults).state;
            var b := CheckL2(config, s.(gauges := Gauges(0, 0)), ip, w.clock, done, answer, faults).state;
            a.l1 == b.l1 && a.l2 == b.l2
  {
  }

  /** The writing part of a report; after a failed write the second step does nothing. */
  lemma AtomicWrite(config: Config, w: World, ip: IP, breaker: Breaker, faults: Faults)
    requires TaskOf(w, ip) == Recording(HoneyRecord(config, ip, w.clock))
    requires !AlreadyReported(Dressed(w, breaker), ip, faults)
    ensures var write := Advance(ip, Choice(faults.write, true, NoAnswer));
            Reaches(w, Next(config, Next(config, w, write), write), ip, w.clock,
                    Trip(config, Dressed(w, breaker), ip, true, w.clock, faults))
  {
  }

  /** An uninterrupted report is the serial report of `Gate`. */
  lemma AtomicReport(config: Config, w: World, ip: IP, breaker: Breaker, faults: Faults) returns (events: seq<Event>)
    requires TaskOf(w, ip) == Idle
    ensures Reaches(w, Final(config, w, events), ip, w.clock, Trip(config, Dressed(w, breaker), ip, true, w.clock, faults))
  {
    var decide := Advance(ip, Choice(faults.existing, true, NoAnswer));
    var write := Advance(ip, Choice(faults.write, true, NoAnswer));
    var w1 := Next(config, w, StartReport(ip));
    var w2 := Next(config, w1, decide);
    var rest := [];
    if TaskOf(w2, ip).Recording? {
      AtomicWrite(config, w2, ip, breaker, faults);
      TwoSteps(config, w2, write, write);
      rest := [write] + ([write] + []);
    }
    FinalStep(config, w1, decide, rest);
    FinalStep(config, w, StartReport(ip), [decide] + rest);
    events := [StartReport(ip)] + ([decide] + rest);
  }

  /** The four accesses of a background report; once it is over, the rest do nothing. */
  lemma AtomicFlight(config: Config, w: World, ip: IP, breaker: Breaker, delivered: bool, faults: Faults)
    requires TaskOf(w, ip) == Fetching
    ensures var fetch, mark := Advance(ip, Choice(faults.existing, true, NoAnswer)), Advance(ip, Choice(faults.write, true, NoAnswer));
            var call := Advance(ip, Choice(false, delivered, NoAnswer));
            var t := Next(config, Next(config, Next(config, Next(config, w, fetch), call), mark), mark);
            Reaches(w, t, ip, w.clock, Reported(config, Dressed(w, breaker), ip, w.clock, delivered, faults))
  {
    var w1 := Next(config, w, Advance(ip, Choice(faults.existing, true, NoAnswer)));
    if TaskOf(w1, ip) != Idle {
      AtomicDelivery(config, w1, ip, breaker, delivered, faults);
    }
  }

  lemma AtomicDelivery(config: Config, w: World, ip: IP, breaker: Breaker, delivered: bool, faults: Faults)
    requires !faults.existing && ip in w.l2 && !w.l2[ip].reported && TaskOf(w, ip) == Delivering(w.l2[ip])
    ensures var call, mark := Advance(ip, Choice(false, delivered, NoAnswer)), Advance(ip, Choice(faults.write, true, NoAnswer));
            var t := Next(config, Next(config, Next(config, w, call), mark), mark);
            Reaches(w, t, ip, w.clock, Reported(config, Dressed(w, breaker), ip, w.clock, delivered, faults))
  {
  }

  /** An uninterrupted background report is the serial one of `Gate`. */
  lemma AtomicBackgroundReport(config: Config, w: World, ip: IP, breaker: Breaker, delivered: bool, faults: Faults)
    returns (events: seq<Event>)
    requires TaskOf(w, ip) == Idle
    ensures Reaches(w, Final(config, w, events), ip, w.clock,
                    Reported(config, Dressed(w, breaker), ip, w.clock, delivered, faults))
  {
    var fetch, mark := Advance(ip, Choice(faults.existing, true, NoAnswer)), Advance(ip, Choice(faults.write, true, NoAnswer));
    var call := Advance(ip, Choice(false, delivered, NoAnswer));
    var w1 := Next(config, w, StartDelivery(ip));
    var w2 := Next(config, w1, fetch);
    var w3 := Next(config, w2, call);
    AtomicFlight(config, w1, ip, breaker, delivered, faults);
    TwoSteps(config, w3, mark, mark);
    FinalStep(config, w2, call, [mark] + ([mark] + []));
    FinalStep(config, w1, fetch, [call] + ([mark] + ([mark] + [])));
    events := [StartDelivery(ip)] + ([fetch] + ([call] + ([mark] + ([mark] + []))));
    FinalStep(config, w, StartDelivery(ip), [fetch] + ([call] + ([mark] + ([mark] + []))));
  }

  /** Three uninterrupted steps of the worker are its serial turn of `Gate`. */
  lemma AtomicCleanup(config: Config, w: World, breaker: Breaker, faults: Faults) returns (events: seq<Event>)
    requires w.worker == Resting
    ensures var t, s := Final(config, w, events), Cleaned(Dressed(w, breaker), w.clock, faults);
            t == w.(l1 := s.l1, l2 := s.l2)
  {
    var work := Work(faults.delete);
    TwoSteps(config, Next(config, w, work), work, work);
    FinalStep(config, w, work, [work] + ([work] + []));
    events := [work] + ([work] + ([work] + []));
  }

  // ---------- why one operation per address ----------

  /** The next access of an operation on `ip` that stands at `task`. */
  function Access(config: Config, w: World, ip: IP, task: Task): World {
    Continue(config, Becomes(w, ip, task), ip, Choice(false, true, NoAnswer))
  }

  /**
   * Two reports of one address may not interleave: if the first writes its row, the second writes and
   * publishes, and the first publishes last, then L1 serves the first record and the table the second,
   * both live.
   */
  lemma TwoReportsDisagree(config: Config, w: World, ip: IP, earlier: Instant, later: Instant)
    requires Sane(config) && Distinct(w.l1) && ZERO_TIME < earlier < later <= w.clock
    requires config.blocking.For? && w.clock < BlockedUntil(config, earlier)
    ensures var a, b := HoneyRecord(config, ip, earlier), HoneyRecord(config, ip, later);
            var both := Access(config, Access(config, w, ip, Recording(a)), ip, Recording(b));
            var t := Access(config, Access(config, both, ip, Publishing(b)), ip, Publishing(a));
            && TaskOf(both, ip) == Publishing(b) && TaskOf(t, ip) == Idle
            && Find(t.l1, ip) == Some(a) && a.Live(t.clock) && ip in t.l2 && t.l2[ip] == b && a != b
  {
    var a, b := HoneyRecord(config, ip, earlier), HoneyRecord(config, ip, later);
    PutEverywhere(w.l1, config.maxSize, ip, b, w.clock);
    PutEverywhere(Put(w.l1, config.maxSize, ip, b, w.clock), config.maxSize, ip, a, w.clock);
  }
}
