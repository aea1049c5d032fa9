/**
 * A block among steps of other addresses. Operations of other addresses and the worker interleave at
 * every access to a store, while the blocked address has one operation in flight, as in
 * `LiveCoherence`. From the moment a report has written the row until the block ends, no check of the
 * address leaves the stores, and whatever one serves convicts.
 */
module LiveBlock {
  import opened Records
  import opened Recency
  import opened Table
  import opened Gate
  import opened BlockPersistence
  import opened LiveCoherence

  // ---------- what a check serves ----------

  /** The record a step of a check answers with: an unexpired L1 entry, the row, or what the API said. */
  function Serves(w: World, e: Event, ip: IP): Option<IPRecord> {
    if e == StartCheck(ip) && TaskOf(w, ip) == Idle then
      match Find(w.l1, ip)
      case Some(record) => if record.Expired(w.clock) then None else Some(record)
      case None => None
    else if e.Advance? && e.ip == ip then
      match TaskOf(w, ip)
      case Filling(row) => Some(row)
      case Caching(record) => Some(record)
      case _ => None
    else None
  }

  /** A check of `ip` gives up because its table read fails. */
  predicate GivesUp(w: World, e: Event, ip: IP) {
    e.Advance? && e.ip == ip && e.choice.fault && TaskOf(w, ip) == Reading
  }

  /** The points at which a check drops the record or goes to the API. */
  predicate Astray(task: Task) {
    task.Rereading? || task.Removing? || task.Deleting? || task.Asking? || task.Saving? || task.Caching?
  }

  /** One step keeps the block: what it serves convicts, and an open check goes on to the table's row. */
  ghost predicate Holds(config: Config, w: World, e: Event, ip: IP) {
    && !Astray(TaskOf(w, ip))
    && (Serves(w, e, ip).Some? ==> Serves(w, e, ip).value.score >= config.threshold)
    && (e == StartCheck(ip) && TaskOf(w, ip) == Idle ==>
          Serves(w, e, ip).Some? || TaskOf(Next(config, w, e), ip) == Reading)
    && (e.Advance? && e.ip == ip && TaskOf(w, ip) == Reading ==>
          GivesUp(w, e, ip) || TaskOf(Next(config, w, e), ip).Filling?)
  }

  ghost predicate AllHold(config: Config, w: World, events: seq<Event>, ip: IP, until: Instant)
    decreases |events|
  {
    events == [] ||
    ((w.clock < until ==> Holds(config, w, events[0], ip)) && AllHold(config, Next(config, w, events[0]), events[1..], ip, until))
  }

  // ---------- the invariant ----------

  /** What an operation on the blocked address carries convicts as well. */
  predicate OnGuard(config: Config, task: Task, until: Instant) {
    match task
    case Filling(row) => Convicts(config, row, until)
    case Recording(record) => Convicts(config, record, until)
    case Publishing(record) => Convicts(config, record, until)
    case Delivering(record) => Convicts(config, record, until)
    case Marking(record) => Convicts(config, record, until)
    case Refreshing(record) => Convicts(config, record, until)
    case _ => !Astray(task)
  }

  /** L1 may still hold an older record while the report that replaces it is about to publish. */
  ghost predicate Guarded(config: Config, w: World, ip: IP, until: Instant) {
    && Inv(w)
    && ip in w.l2 && Convicts(config, w.l2[ip], until)
    && OnGuard(config, TaskOf(w, ip), until)
    && (Find(w.l1, ip).Some? && !TaskOf(w, ip).Publishing? ==> Lingers(config, Find(w.l1, ip).value, until))
  }

  lemma OtherStepGuards(config: Config, w: World, e: Event, ip: IP, until: Instant)
    requires Sane(config) && Guarded(config, w, ip, until) && !Belongs(e, ip)
    ensures var t := Next(config, w, e); t.clock < until ==> Guarded(config, t, ip, until)
  {
    NextKeepsInv(config, w, e);
    NextSpares(config, w, e, ip);
  }

  lemma StartGuards(config: Config, w: World, e: Event, ip: IP, until: Instant)
    requires Sane(config) && w.clock < until && Guarded(config, w, ip, until)
    requires Belongs(e, ip) && !e.Advance?
    ensures Guarded(config, Next(config, w, e), ip, until) && Holds(config, w, e, ip)
  {
    NextKeepsInv(config, w, e);
    TouchEverywhere(w.l1, ip, w.clock);
  }

  /** A step that writes to L1. */
  lemma CacheStepGuards(config: Config, w: World, e: Event, ip: IP, until: Instant)
    requires Sane(config) && w.clock < until && Guarded(config, w, ip, until) && e.Advance? && e.ip == ip
    requires var task := TaskOf(w, ip); task.Filling? || task.Publishing? || task.Refreshing?
    ensures Guarded(config, Next(config, w, e), ip, until) && Holds(config, w, e, ip)
  {
    NextKeepsInv(config, w, e);
    var task := TaskOf(w, ip);
    PutEverywhere(w.l1, config.maxSize, ip, if task.Filling? then task.row else task.record, w.clock);
  }

  /** A step that writes to the table. */
  lemma TableStepGuards(config: Config, w: World, e: Event, ip: IP, until: Instant)
    requires Sane(config) && w.clock < until && Guarded(config, w, ip, until) && e.Advance? && e.ip == ip
    requires var task := TaskOf(w, ip); task.Recording? || task.Marking?
    ensures Guarded(config, Next(config, w, e), ip, until) && Holds(config, w, e, ip)
  {
    NextKeepsInv(config, w, e);
    assert Good(w, ip);
  }

  /** A step that only reads, or waits for the API. */
  lemma QuietStepGuards(config: Config, w: World, e: Event, ip: IP, until: Instant)
    requires Sane(config) && config.threshold <= 100 && w.clock < until <= BlockedUntil(config, w.clock)
    requires Guarded(config, w, ip, until) && e.Advance? && e.ip == ip
    requires var task := TaskOf(w, ip);
             task.Idle? || task.Reading? || task.Deciding? || task.Fetching? || task.Delivering?
    ensures Guarded(config, Next(config, w, e), ip, until) && Holds(config, w, e, ip)
  {
    NextKeepsInv(config, w, e);
    var t := Next(config, w, e);
    assert t.l1 == w.l1 && t.l2 == w.l2 && t.clock == w.clock;
  }

  lemma AdvanceGuards(config: Config, w: World, e: Event, ip: IP, until: Instant)
    requires Sane(config) && config.threshold <= 100 && w.clock < until <= BlockedUntil(config, w.clock)
    requires Guarded(config, w, ip, until) && e.Advance? && e.ip == ip
    ensures Guarded(config, Next(config, w, e), ip, until) && Holds(config, w, e, ip)
  {
    var task := TaskOf(w, ip);
    if task.Filling? || task.Publishing? || task.Refreshing? {
      CacheStepGuards(config, w, e, ip, until);
    } else if task.Recording? || task.Marking? {
      TableStepGuards(config, w, e, ip, until);
    } else {
      QuietStepGuards(config, w, e, ip, until);
    }
  }

  lemma NextGuards(config: Config, w: World, e: Event, ip: IP, until: Instant)
    requires Sane(config) && config.threshold <= 100 && w.clock < until <= BlockedUntil(config, w.clock)
    requires Guarded(config, w, ip, until)
    ensures var t := Next(config, w, e);
            Holds(config, w, e, ip) && w.clock <= t.clock && (t.clock < until ==> Guarded(config, t, ip, until))
  {
    if !Belongs(e, ip) {
      OtherStepGuards(config, w, e, ip, until);
    } else if e.Advance? {
      AdvanceGuards(config, w, e, ip, until);
    } else {
      StartGuards(config, w, e, ip, until);
    }
  }

  lemma {:induction false} OverIsOver(config: Config, w: World, events: seq<Event>, ip: IP, until: Instant)
    requires until <= w.clock
    ensures AllHold(config, w, events, ip, until)
    decreases |events|
  {
    if events == [] {
    } else {
      OverIsOver(config, Next(config, w, events[0]), events[1..], ip, until);
    }
  }

  lemma {:induction false} GuardedHolds(config: Config, w: World, events: seq<Event>, ip: IP, until: Instant)
    requires Sane(config) && config.threshold <= 100 && w.clock < until <= BlockedUntil(config, w.clock)
    requires Guarded(config, w, ip, until)
    ensures AllHold(config, w, events, ip, until)
    decreases |events|
  {
    if events == [] {
    } else {
      var t := Next(config, w, events[0]);
      NextGuards(config, w, events[0], ip, until);
      if t.clock < until {
        GuardedHolds(config, t, events[1..], ip, until);
      } else {
        OverIsOver(config, t, events[1..], ip, until);
      }
    }
  }

  /**
   * After any history, once a report has written the record it made at `at`: in every interleaving with
   * other addresses and the worker, every check of the address before the block ends answers from a
   * record that convicts, or gives up on a failed table read, and none goes to the API.
   */
  lemma BlockPersistsAmongSteps(config: Config, rows: Rows, clock: Instant, history: seq<Event>, ip: IP, at: Instant,
                                choice: Choice, events: seq<Event>)
    requires Sane(config) && config.threshold <= 100 && Stored(rows) && clock > ZERO_TIME
    requires var w := Final(config, Started(rows, clock), history);
             && TaskOf(w, ip) == Recording(HoneyRecord(config, ip, at)) && at <= w.clock < BlockedUntil(config, at)
             && !choice.fault
    ensures var w := Final(config, Started(rows, clock), history);
            AllHold(config, Next(config, w, Advance(ip, choice)), events, ip, BlockedUntil(config, at))
  {
    var w := Final(config, Started(rows, clock), history);
    RunKeepsInv(config, Started(rows, clock), history);
    NextKeepsInv(config, w, Advance(ip, choice));
    assert Good(w, ip);
    GuardedHolds(config, Next(config, w, Advance(ip, choice)), events, ip, BlockedUntil(config, at));
  }
}
