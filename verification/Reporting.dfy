/**
 * Reporting an address to AbuseIPDB at most once. Foreground operations are single steps; the
 * background report is split into its read, the API call, the mark and the cache refresh, which
 * interleave with everything else. Single flight keeps one report per address under way.
 */
module Reporting {
  import opened Records
  import opened Recency
  import opened Table
  import opened Gate

  datatype Flight = Calling(record: IPRecord) | Marking(record: IPRecord) | Refreshing(record: IPRecord)

  /** `waiting` counts the background tasks that were started and have not yet asked for their flight. */
  datatype World = World(gate: State, clock: Instant, flights: map<IP, Flight>, waiting: map<IP, nat>)

  datatype Event =
    | Tick(now: Instant)
    | Foreground(op: Op)
    | Fetch(ip: IP, fault: bool)
    | Call(ip: IP, delivered: bool)
    | Mark(ip: IP, fault: bool)
    | Refresh(ip: IP)

  function Land(w: World, ip: IP): World {
    w.(flights := w.flights - {ip})
  }

  function Waiting(w: World, ip: IP): nat {
    if ip in w.waiting then w.waiting[ip] else 0
  }

  /** With auto report on and an API client, both meant by `autoReport` here, a report that wrote starts a task. */
  function Started(config: Config, w: World, op: Op): map<IP, nat> {
    if op.ReportThreat? && Writes(w.gate, op.ip, op.parses, op.faults) && config.autoReport
    then w.waiting[op.ip := Waiting(w, op.ip) + 1]
    else w.waiting
  }

  /** A task whose flight is under way already joins it and does nothing of its own. */
  function Departed(w: World, ip: IP, fault: bool): World
    requires Waiting(w, ip) > 0
  {
    var rest := w.(waiting := w.waiting[ip := Waiting(w, ip) - 1]);
    if ip in w.flights || fault || ip !in w.gate.l2 || w.gate.l2[ip].reported then rest
    else rest.(flights := w.flights[ip := Calling(w.gate.l2[ip])])
  }

  /** One event; an event that is not enabled changes nothing. */
  function Next(config: Config, w: World, e: Event): World {
    match e
    case Tick(now) => if w.clock <= now then w.(clock := now) else w
    case Foreground(op) =>
      if op.Begin() == w.clock <= op.End() && !op.Deliver?
      then w.(gate := Step(config, w.gate, op).state, clock := op.End(), waiting := Started(config, w, op))
      else w
    case Fetch(ip, fault) =>
      if Waiting(w, ip) > 0 then Departed(w, ip, fault) else w
    case Call(ip, delivered) =>
      if !(ip in w.flights && w.flights[ip].Calling?) then w
      else if delivered then w.(flights := w.flights[ip := Marking(w.flights[ip].record.(reported := true))])
      else Land(w, ip)
    case Mark(ip, fault) =>
      if !(ip in w.flights && w.flights[ip].Marking?) then w
      else if fault then Land(w, ip)
      else
        var record := w.flights[ip].record;
        w.(gate := w.gate.(l2 := Update(w.gate.l2, record, w.clock, config.ttl)),
           flights := w.flights[ip := Refreshing(record)])
    case Refresh(ip) =>
      if !(ip in w.flights && w.flights[ip].Refreshing?) then w
      else
        var record := w.flights[ip].record;
        Land(w.(gate := w.gate.(l1 := Put(w.gate.l1, config.maxSize, ip, record, w.clock))), ip)
  }

  function Final(config: Config, w: World, events: seq<Event>): World
    decreases |events|
  {
    if events == [] then w else Final(config, Next(config, w, events[0]), events[1..])
  }

  /** The event is a `ReportIP` call for `ip` that the API accepts. */
  predicate Delivers(w: World, e: Event, ip: IP) {
    e.Call? && e.ip == ip && e.delivered && ip in w.flights && w.flights[ip].Calling?
  }

  /** How often the run successfully reports `ip`. */
  function Deliveries(config: Config, w: World, events: seq<Event>, ip: IP): nat
    decreases |events|
  {
    if events == [] then 0
    else (if Delivers(w, events[0], ip) then 1 else 0) + Deliveries(config, Next(config, w, events[0]), events[1..], ip)
  }

  /** An uninterrupted flight is the whole background report of `Gate`. */
  lemma UninterruptedFlight(config: Config, w: World, ip: IP, delivered: bool, faults: Faults)
    requires ip !in w.flights && Waiting(w, ip) > 0
    ensures var events := [Fetch(ip, faults.existing), Call(ip, delivered), Mark(ip, faults.write), Refresh(ip)];
            Final(config, w, events) == w.(gate := Reported(config, w.gate, ip, w.clock, delivered, faults),
                                                   waiting := w.waiting[ip := Waiting(w, ip) - 1])
  {
    var w1 := Next(config, w, Fetch(ip, faults.existing));
    FinalOfFour(config, w, Fetch(ip, faults.existing), Call(ip, delivered), Mark(ip, faults.write), Refresh(ip));
    if ip in w1.flights {
      UninterruptedCall(config, w1, ip, delivered, faults);
      assert w1.flights - {ip} == w.flights;
    }
  }

  lemma UninterruptedCall(config: Config, w: World, ip: IP, delivered: bool, faults: Faults)
    requires ip in w.flights && w.flights[ip].Calling? && !faults.existing
    requires ip in w.gate.l2 && w.flights[ip].record == w.gate.l2[ip] && !w.gate.l2[ip].reported
    ensures Next(config, Next(config, Next(config, w, Call(ip, delivered)), Mark(ip, faults.write)), Refresh(ip))
         == Land(w, ip).(gate := Reported(config, w.gate, ip, w.clock, delivered, faults))
  {
    var w1 := Next(config, w, Call(ip, delivered));
    var w2 := Next(config, w1, Mark(ip, faults.write));
    assert Next(config, w2, Refresh(ip)).flights == w.flights - {ip};
  }

  // ---------- what a run must not do ----------

  /** The row of `ip` is missing or has expired. */
  predicate Lapsed(w: World, ip: IP) {
    ip !in w.gate.l2 || !w.gate.l2[ip].Live(w.clock)
  }

  /**
   * A failed mark; a check that deletes the row because L1 holds an expired copy; or a report that
   * overwrites a reported threat row because its read failed, which the code treats as "no row".
   */
  predicate Disturbs(w: World, e: Event, ip: IP) {
    || (e.Mark? && e.ip == ip && e.fault && ip in w.flights && w.flights[ip].Marking?)
    || (e.Foreground? && e.op.Check? && e.op.ip == ip && !e.op.faults.delete
        && Find(w.gate.l1, ip).Some? && Find(w.gate.l1, ip).value.Expired(e.op.now))
    || (e.Foreground? && e.op.ReportThreat? && e.op.ip == ip && e.op.faults.existing
        && Writes(w.gate, ip, e.op.parses, e.op.faults)
        && ip in w.gate.l2 && w.gate.l2[ip].status == Threat && w.gate.l2[ip].reported)
  }

  ghost predicate Undisturbed(config: Config, w: World, events: seq<Event>, ip: IP)
    decreases |events|
  {
    && !Lapsed(w, ip)
    && (events != [] ==> !Disturbs(w, events[0], ip) && Undisturbed(config, Next(config, w, events[0]), events[1..], ip))
  }

  // ---------- how many deliveries are left ----------

  /** Rows and flights carry their own address and explicit times; past the call, the mark is set. */
  ghost predicate Sound(w: World) {
    && w.clock > ZERO_TIME && Stored(w.gate.l2)
    && forall ip :: ip in w.flights ==> Carries(w.flights[ip], ip)
  }

  predicate Carries(flight: Flight, ip: IP) {
    && flight.record.ip == ip && flight.record.checkedAt != ZERO_TIME && flight.record.expiresAt != ZERO_TIME
    && (!flight.Calling? ==> flight.record.reported)
  }

  /**
   * The deliveries a row allows while no flight is under way: one, unless a reported threat row stops
   * every report, or a waiting task reports a safe row before the next honeytoken report overwrites it.
   */
  function FromRow(row: IPRecord, waiting: nat): nat {
    if row.status == Threat then (if row.reported then 0 else 1)
    else if row.reported || waiting == 0 then 1 else 2
  }

  /**
   * The deliveries that can follow once `record` is delivered: its mark puts a reported row in
   * place, which a later honeytoken report recognises only if it is a threat.
   */
  function AfterMark(record: IPRecord, clock: Instant): nat {
    if record.status == Safe && record.Live(clock) then 1 else 0
  }

  function Max(a: nat, b: nat): nat {
    if a < b then b else a
  }

  /** The most deliveries for `ip` that any undisturbed run from here can make. */
  function Left(w: World, ip: IP): nat
    requires ip in w.gate.l2
  {
    if ip in w.flights && w.flights[ip].Marking? then AfterMark(w.flights[ip].record, w.clock)
    else if ip in w.flights && w.flights[ip].Calling?
    then Max(1 + AfterMark(w.flights[ip].record, w.clock), FromRow(w.gate.l2[ip], Waiting(w, ip)))
    else FromRow(w.gate.l2[ip], Waiting(w, ip))
  }

  /** A foreground step leaves the flights alone, and a live row too unless it is a fresh report. */
  lemma ForegroundKeepsRow(config: Config, w: World, op: Op, ip: IP)
    requires Sound(w) && !Lapsed(w, ip) && !Disturbs(w, Foreground(op), ip)
    requires op.Begin() == w.clock <= op.End() && !op.Deliver?
    ensures var t := Step(config, w.gate, op).state;
            && ip in t.l2
            && (t.l2[ip] == w.gate.l2[ip] ||
                  (t.l2[ip].status == Threat && !(w.gate.l2[ip].status == Threat && w.gate.l2[ip].reported)
                   && !t.l2[ip].reported))
  {
    if op.Check? {
      CheckKeepsRow(config, w, op, ip);
    }
  }

  lemma CheckKeepsRow(config: Config, w: World, op: Op, ip: IP)
    requires Sound(w) && !Lapsed(w, ip) && !Disturbs(w, Foreground(op), ip)
    requires op.Check? && op.now == w.clock
    ensures var t := Step(config, w.gate, op).state;
            ip in t.l2 && t.l2[ip] == w.gate.l2[ip]
  {
    var s := w.gate.(l1 := Touch(w.gate.l1, op.ip, op.now));
    var found := Find(w.gate.l1, op.ip);
    if found.None? || found.value.Expired(op.now) {
      var below := if found.None? then s else CleanExpiredIP(s, op.ip, op.now, op.faults);
      assert ip in below.l2 && below.l2[ip] == w.gate.l2[ip];
      assert Step(config, w.gate, op) == CheckL2(config, below, op.ip, op.now, op.done, op.answer, op.faults);
    }
  }

  /** Every step spends at least what it delivers. */
  ghost predicate Spends(config: Config, w: World, e: Event, ip: IP)
    requires ip in w.gate.l2
  {
    var t := Next(config, w, e);
    !Lapsed(t, ip) ==> (if Delivers(w, e, ip) then 1 else 0) + Left(t, ip) <= Left(w, ip)
  }

  lemma ForegroundSpends(config: Config, w: World, op: Op, ip: IP)
    requires Sound(w) && !Lapsed(w, ip) && !Disturbs(w, Foreground(op), ip)
    ensures Spends(config, w, Foreground(op), ip)
  {
    if op.Begin() == w.clock <= op.End() && !op.Deliver? {
      ForegroundKeepsRow(config, w, op, ip);
    }
  }

  lemma StepSpends(config: Config, w: World, e: Event, ip: IP)
    requires Sound(w) && !Lapsed(w, ip) && !Disturbs(w, e, ip)
    ensures Spends(config, w, e, ip)
  {
    if e.Foreground? {
      ForegroundSpends(config, w, e.op, ip);
    } else if e.Tick? {
    } else if e.ip == ip {
      FlightSpends(config, w, e, ip);
    } else {
      OtherFlightSpends(config, w, e, ip);
    }
  }

  lemma OtherFlightSpends(config: Config, w: World, e: Event, ip: IP)
    requires Sound(w) && !Lapsed(w, ip) && !e.Foreground? && !e.Tick? && e.ip != ip
    ensures Spends(config, w, e, ip)
  {
    var t := Next(config, w, e);
    assert e.ip in w.flights ==> Carries(w.flights[e.ip], e.ip);
    assert t.gate.l2[ip] == w.gate.l2[ip] && Waiting(t, ip) == Waiting(w, ip) && t.clock == w.clock;
    assert ip in t.flights <==> ip in w.flights;
  }

  lemma FlightSpends(config: Config, w: World, e: Event, ip: IP)
    requires Sound(w) && !Lapsed(w, ip) && !Disturbs(w, e, ip) && !e.Foreground? && !e.Tick? && e.ip == ip
    ensures Spends(config, w, e, ip)
  {
  }

  lemma NextKeepsSound(config: Config, w: World, e: Event)
    requires Sane(config) && Sound(w)
    ensures Sound(Next(config, w, e))
  {
    if e.Foreground? && e.op.Check? && e.op.Begin() == w.clock <= e.op.End() {
      CheckKeepsStored(config, w.gate, e.op);
    }
  }

  lemma CheckKeepsStored(config: Config, s: State, op: Op)
    requires Sane(config) && ZERO_TIME < op.Begin() <= op.End() && Stored(s.l2) && op.Check?
    ensures Stored(Step(config, s, op).state.l2)
  {
    var touched := s.(l1 := Touch(s.l1, op.ip, op.now));
    CheckL2KeepsStored(config, touched, op);
    CheckL2KeepsStored(config, CleanExpiredIP(touched, op.ip, op.now, op.faults), op);
  }

  lemma CheckL2KeepsStored(config: Config, s: State, op: Op)
    requires Sane(config) && ZERO_TIME < op.Begin() <= op.End() && Stored(s.l2) && op.Check?
    ensures Stored(CheckL2(config, s, op.ip, op.now, op.done, op.answer, op.faults).state.l2)
  {
    assert Stored(ApiRequest(config, s, op.ip, op.done, op.answer, op.faults).0.l2);
  }

  /** No undisturbed run delivers more than what is left. */
  lemma {:induction false} AtMostLeft(config: Config, w: World, events: seq<Event>, ip: IP)
    requires Sane(config) && Sound(w) && Undisturbed(config, w, events, ip)
    ensures Deliveries(config, w, events, ip) <= Left(w, ip)
    decreases |events|
  {
    if events == [] {
    } else {
      StepSpends(config, w, events[0], ip);
      NextKeepsSound(config, w, events[0]);
      AtMostLeft(config, Next(config, w, events[0]), events[1..], ip);
    }
  }

  // ---------- runs that make them ----------

  lemma DeliveriesStep(config: Config, w: World, e: Event, rest: seq<Event>, ip: IP)
    ensures Deliveries(config, w, [e] + rest, ip)
         == (if Delivers(w, e, ip) then 1 else 0) + Deliveries(config, Next(config, w, e), rest, ip)
    ensures Undisturbed(config, w, [e] + rest, ip)
       <==> !Lapsed(w, ip) && !Disturbs(w, e, ip) && Undisturbed(config, Next(config, w, e), rest, ip)
  {
    assert ([e] + rest)[1..] == rest;
  }

  /** The run `events` from `w` is undisturbed and makes exactly `n` deliveries. */
  ghost predicate Makes(config: Config, w: World, events: seq<Event>, ip: IP, n: nat) {
    Undisturbed(config, w, events, ip) && Deliveries(config, w, events, ip) == n
  }

  lemma MakesStep(config: Config, w: World, e: Event, rest: seq<Event>, ip: IP, n: nat)
    requires !Lapsed(w, ip) && !Disturbs(w, e, ip) && Makes(config, Next(config, w, e), rest, ip, n)
    ensures Makes(config, w, [e] + rest, ip, n + if Delivers(w, e, ip) then 1 else 0)
  {
    DeliveriesStep(config, w, e, rest, ip);
  }

  /** The run `events` from `w` is disturbed or makes at most `n` deliveries. */
  ghost predicate Within(config: Config, w: World, events: seq<Event>, ip: IP, n: nat) {
    Undisturbed(config, w, events, ip) ==> Deliveries(config, w, events, ip) <= n
  }

  /** Reports are sent, and blocks last: one made now outlives this instant. */
  predicate Blocks(config: Config, w: World) {
    config.autoReport && BlockedUntil(config, w.clock) > w.clock > ZERO_TIME
  }

  /** A waiting task fetches a live unreported row and delivers. */
  lemma DeliverOnce(config: Config, w: World, ip: IP) returns (events: seq<Event>)
    requires !Lapsed(w, ip) && ip !in w.flights && !w.gate.l2[ip].reported && Waiting(w, ip) > 0
    ensures Makes(config, w, events, ip, 1)
  {
    var x := Next(config, w, Fetch(ip, false));
    MakesStep(config, x, Call(ip, true), [], ip, 0);
    MakesStep(config, w, Fetch(ip, false), [Call(ip, true)] + [], ip, 1);
    events := [Fetch(ip, false)] + ([Call(ip, true)] + []);
  }

  /** Whatever the row, unless it is a reported threat: another honeytoken report is delivered. */
  lemma DeliverAnother(config: Config, w: World, ip: IP) returns (events: seq<Event>)
    requires Blocks(config, w) && !Lapsed(w, ip) && ip !in w.flights
    requires !(w.gate.l2[ip].status == Threat && w.gate.l2[ip].reported)
    ensures Makes(config, w, events, ip, 1)
  {
    var trip := Foreground(ReportThreat(ip, true, w.clock, NO_FAULTS));
    var rest := DeliverOnce(config, Next(config, w, trip), ip);
    MakesStep(config, w, trip, rest, ip, 1);
    events := [trip] + rest;
  }

  /** The mark of a live safe record, the refresh and another report. */
  lemma DeliverAfterMark(config: Config, w: World, ip: IP) returns (events: seq<Event>)
    requires Sane(config) && Sound(w) && Blocks(config, w) && !Lapsed(w, ip)
    requires ip in w.flights && w.flights[ip].Marking?
    ensures Makes(config, w, events, ip, AfterMark(w.flights[ip].record, w.clock))
  {
    events := [];
    if AfterMark(w.flights[ip].record, w.clock) == 1 {
      var w1 := Next(config, w, Mark(ip, false));
      assert w1.gate.l2[ip].status == Safe && w1.gate.l2[ip].Live(w1.clock);
      var w2 := Next(config, w1, Refresh(ip));
      var rest := DeliverAnother(config, w2, ip);
      MakesStep(config, w1, Refresh(ip), rest, ip, 1);
      MakesStep(config, w, Mark(ip, false), [Refresh(ip)] + rest, ip, 1);
      events := [Mark(ip, false)] + ([Refresh(ip)] + rest);
    }
  }

  lemma DeliverFromFlight(config: Config, w: World, ip: IP) returns (events: seq<Event>)
    requires Sane(config) && Sound(w) && Blocks(config, w) && !Lapsed(w, ip)
    requires ip in w.flights && w.flights[ip].Calling?
    ensures Makes(config, w, events, ip, 1 + AfterMark(w.flights[ip].record, w.clock))
  {
    var w1 := Next(config, w, Call(ip, true));
    var rest := DeliverAfterMark(config, w1, ip);
    MakesStep(config, w, Call(ip, true), rest, ip, AfterMark(w.flights[ip].record, w.clock));
    events := [Call(ip, true)] + rest;
  }

  lemma DeliverFromRow(config: Config, w: World, ip: IP) returns (events: seq<Event>)
    requires Sane(config) && Sound(w) && Blocks(config, w) && !Lapsed(w, ip) && ip !in w.flights
    ensures Makes(config, w, events, ip, FromRow(w.gate.l2[ip], Waiting(w, ip)))
  {
    var row := w.gate.l2[ip];
    if row.status == Threat && row.reported {
      events := [];
    } else if row.status == Threat || row.reported || Waiting(w, ip) == 0 {
      events := DeliverAnother(config, w, ip);
    } else {
      var w1 := Next(config, w, Fetch(ip, false));
      var rest := DeliverFromFlight(config, w1, ip);
      MakesStep(config, w, Fetch(ip, false), rest, ip, 2);
      events := [Fetch(ip, false)] + rest;
    }
  }

  /** Some undisturbed run delivers all that is left. */
  lemma LeftIsReached(config: Config, w: World, ip: IP) returns (events: seq<Event>)
    requires Sane(config) && Sound(w) && Blocks(config, w) && !Lapsed(w, ip)
    ensures Makes(config, w, events, ip, Left(w, ip))
  {
    if ip !in w.flights {
      events := DeliverFromRow(config, w, ip);
    } else if w.flights[ip].Marking? {
      events := DeliverAfterMark(config, w, ip);
    } else if w.flights[ip].Calling? && FromRow(w.gate.l2[ip], Waiting(w, ip)) <= 1 + AfterMark(w.flights[ip].record, w.clock) {
      events := DeliverFromFlight(config, w, ip);
    } else {
      var land := if w.flights[ip].Calling? then Call(ip, false) else Refresh(ip);
      var rest := DeliverFromRow(config, Next(config, w, land), ip);
      MakesStep(config, w, land, rest, ip, FromRow(w.gate.l2[ip], Waiting(w, ip)));
      events := [land] + rest;
    }
  }

  /** So what is left bounds all undisturbed runs, and nothing smaller does. */
  lemma LeftIsExact(config: Config, w: World, ip: IP, n: nat)
    requires Sane(config) && Sound(w) && Blocks(config, w) && !Lapsed(w, ip)
    ensures (forall events :: Within(config, w, events, ip, n))
            <==> Left(w, ip) <= n
  {
    if Left(w, ip) <= n {
      forall events
        ensures Within(config, w, events, ip, n)
      {
        if Undisturbed(config, w, events, ip) {
          AtMostLeft(config, w, events, ip);
        }
      }
    } else {
      var most := LeftIsReached(config, w, ip);
      assert Makes(config, w, most, ip, Left(w, ip));
      assert !Within(config, w, most, ip, n);
    }
  }

  // ---------- at most once ----------

  /** A waiting task may still fetch a safe row that is not reported, or a flight carries a live safe record. */
  predicate SafeInPlay(w: World, ip: IP)
    requires ip in w.gate.l2
  {
    || (Waiting(w, ip) > 0 && !(ip in w.flights && w.flights[ip].Marking?)
        && w.gate.l2[ip].status == Safe && !w.gate.l2[ip].reported)
    || (ip in w.flights && w.flights[ip].Calling?
        && w.flights[ip].record.status == Safe && w.flights[ip].record.Live(w.clock))
  }

  /**
   * At most once, exactly: from any world with a live row, every undisturbed run reports the address
   * successfully at most once if and only if no safe record is in play.
   */
  lemma AtMostOnce(config: Config, w: World, ip: IP)
    requires Sane(config) && Sound(w) && Blocks(config, w) && !Lapsed(w, ip)
    ensures (forall events :: Within(config, w, events, ip, 1))
            <==> !SafeInPlay(w, ip)
  {
    assert Left(w, ip) <= 1 <==> !SafeInPlay(w, ip);
    LeftIsExact(config, w, ip, 1);
  }

  /**
   * And once a report is delivered, no undisturbed run delivers another one if and only if the record
   * the flight carried was not both safe and still live: the mark of such a record would hide the
   * delivery from the next honeytoken report.
   */
  lemma NeverAgain(config: Config, w: World, ip: IP)
    requires Sane(config) && Sound(w) && Blocks(config, w) && !Lapsed(w, ip)
    requires ip in w.flights && w.flights[ip].Calling?
    ensures var t := Next(config, w, Call(ip, true));
            (forall events :: Within(config, t, events, ip, 0))
            <==> !(w.flights[ip].record.status == Safe && w.flights[ip].record.Live(w.clock))
  {
    var t := Next(config, w, Call(ip, true));
    NextKeepsSound(config, w, Call(ip, true));
    assert Left(t, ip) == AfterMark(w.flights[ip].record, w.clock);
    LeftIsExact(config, t, ip, 0);
  }

  /** A process that has just started over the table it finds. */
  function Booted(rows: Rows, clock: Instant): World {
    World(EMPTY.(l2 := rows), clock, map[], map[])
  }

  lemma {:induction false} RunKeepsSound(config: Config, w: World, events: seq<Event>)
    requires Sane(config) && Sound(w)
    ensures Sound(Final(config, w, events))
    decreases |events|
  {
    if events == [] {
    } else {
      NextKeepsSound(config, w, events[0]);
      RunKeepsSound(config, Next(config, w, events[0]), events[1..]);
    }
  }

  /**
   * In particular, after any history, from a report that wrote: the address is reported at most once
   * in every undisturbed run if and only if the report found no flight about to call the API with a
   * safe record that is still live.
   */
  lemma AtMostOnceAfterReport(config: Config, rows: Rows, clock: Instant, history: seq<Event>, op: Op)
    requires Sane(config) && Stored(rows) && clock > ZERO_TIME
    requires var w := Final(config, Booted(rows, clock), history);
             && op.ReportThreat? && op.now == w.clock && Blocks(config, w)
             && Writes(w.gate, op.ip, op.parses, op.faults)
    ensures var w := Final(config, Booted(rows, clock), history);
            var t := Next(config, w, Foreground(op));
            (forall events :: Within(config, t, events, op.ip, 1))
            <==> !(op.ip in w.flights && w.flights[op.ip].Calling?
                   && w.flights[op.ip].record.status == Safe && w.flights[op.ip].record.Live(w.clock))
  {
    var w := Final(config, Booted(rows, clock), history);
    RunKeepsSound(config, Booted(rows, clock), history);
    NextKeepsSound(config, w, Foreground(op));
    var t := Next(config, w, Foreground(op));
    assert t.gate.l2[op.ip] == HoneyRecord(config, op.ip, w.clock) && t.flights == w.flights && t.clock == w.clock;
    AtMostOnce(config, t, op.ip);
  }

  // ---------- the excluded cases do occur ----------

  /** A safe flight does occur: the block lapses and the API calls the address safe before the fetch. */
  lemma SafeFlightIsReachable(config: Config, ip: IP) returns (events: seq<Event>)
    requires config.threshold == 50 && config.ttl == 100 && config.blocking == For(1)
    requires config.limits.maxRetries > 0 && config.maxSize > 0 && config.autoReport
    ensures var w := Final(config, Booted(map[], 1), events);
            && ip in w.flights && w.flights[ip].Calling? && !Lapsed(w, ip)
            && w.flights[ip].record == w.gate.l2[ip] && w.flights[ip].record.ip == ip
            && w.flights[ip].record.status == Safe && w.flights[ip].record.expiresAt != ZERO_TIME
  {
    var trip := Foreground(ReportThreat(ip, true, 1, NO_FAULTS));
    var check := Foreground(Check(ip, 3, 3, Score(0), NO_FAULTS));
    events := [trip, Tick(3), check, Fetch(ip, false)];
    var w0 := Booted(map[], 1);
    var w1 := Next(config, w0, trip);
    var w2 := Next(config, w1, Tick(3));
    var w3 := Next(config, w2, check);
    var w4 := Next(config, w3, Fetch(ip, false));
    assert w1.gate.l1 == [Entry(ip, HoneyRecord(config, ip, 1), 1)];
    assert w3.gate.l2[ip] == ApiRecord(config, ip, 0, 3);
    FinalOfFour(config, w0, trip, Tick(3), check, Fetch(ip, false));
  }

  lemma FinalStep(config: Config, w: World, e: Event, rest: seq<Event>)
    ensures Final(config, w, [e] + rest) == Final(config, Next(config, w, e), rest)
  {
    assert ([e] + rest)[1..] == rest;
  }

  lemma FinalOfFour(config: Config, w: World, a: Event, b: Event, c: Event, d: Event)
    ensures Final(config, w, [a, b, c, d])
         == Next(config, Next(config, Next(config, Next(config, w, a), b), c), d)
  {
    assert [a, b, c, d][1..] == [b, c, d] && [b, c, d][1..] == [c, d] && [c, d][1..] == [d];
    var x := Next(config, Next(config, w, a), b);
    assert Final(config, x, [c, d]) == Final(config, Next(config, x, c), [d]);
    assert Final(config, Next(config, x, c), [d]) == Final(config, Next(config, Next(config, x, c), d), []);
  }

  /**
   * One failed read in `ReportThreat` is enough as well: from any state in which the report was
   * delivered and marked, it lets the address be reported again.
   */
  lemma MissedReadReportsAgain(config: Config, w: World, ip: IP) returns (events: seq<Event>)
    requires Blocks(config, w) && !Lapsed(w, ip) && ip !in w.flights
    requires w.gate.l2[ip].status == Threat && w.gate.l2[ip].reported
    ensures var missed := Foreground(ReportThreat(ip, true, w.clock, NO_FAULTS.(existing := true)));
            Makes(config, Next(config, w, missed), events, ip, 1)
  {
    var missed := Foreground(ReportThreat(ip, true, w.clock, NO_FAULTS.(existing := true)));
    events := DeliverOnce(config, Next(config, w, missed), ip);
  }

  /** And so is one failed mark: the delivery leaves no trace in an unreported row. */
  lemma FailedMarkReportsAgain(config: Config, w: World, ip: IP) returns (events: seq<Event>)
    requires Blocks(config, w) && !Lapsed(w, ip) && !w.gate.l2[ip].reported
    requires ip in w.flights && w.flights[ip].Marking?
    ensures Makes(config, Next(config, w, Mark(ip, true)), events, ip, 1)
  {
    events := DeliverAnother(config, Next(config, w, Mark(ip, true)), ip);
  }

  /** A honeytoken report after `w` whose delivery succeeds, with a refresh still to land at most. */
  lemma TripAndDeliver(config: Config, w: World, ip: IP) returns (events: seq<Event>)
    requires Blocks(config, w)
    requires ip in w.gate.l2 ==> !(w.gate.l2[ip].status == Threat && w.gate.l2[ip].reported)
    requires ip in w.flights ==> w.flights[ip].Refreshing?
    ensures var t := Next(config, w, Foreground(ReportThreat(ip, true, w.clock, NO_FAULTS)));
            Makes(config, t, events, ip, 1)
  {
    var t := Next(config, w, Foreground(ReportThreat(ip, true, w.clock, NO_FAULTS)));
    if ip in w.flights {
      var landed := Next(config, t, Refresh(ip));
      var rest := DeliverOnce(config, landed, ip);
      MakesStep(config, t, Refresh(ip), rest, ip, 1);
      events := [Refresh(ip)] + rest;
    } else {
      events := DeliverOnce(config, t, ip);
    }
  }

  /**
   * A lapse is enough: when the reported row expires and the worker deletes it, the next honeytoken
   * report is delivered again.
   */
  lemma LapsedRowReportsAgain(config: Config, w: World, ip: IP) returns (events: seq<Event>)
    requires !Lapsed(w, ip) && ip !in w.flights && w.clock > ZERO_TIME
    requires var expiry := w.gate.l2[ip].expiresAt; Blocks(config, w.(clock := expiry))
    ensures var expiry := w.gate.l2[ip].expiresAt;
            var t := Next(config, Next(config, w, Tick(expiry)), Foreground(Cleanup(expiry, NO_FAULTS)));
            Makes(config, Next(config, t, Foreground(ReportThreat(ip, true, expiry, NO_FAULTS))), events, ip, 1)
  {
    var expiry := w.gate.l2[ip].expiresAt;
    var t := Next(config, Next(config, w, Tick(expiry)), Foreground(Cleanup(expiry, NO_FAULTS)));
    events := TripAndDeliver(config, t, ip);
  }

  /**
   * So is a check that finds an expired copy in L1, for it deletes the row, however long that row was to
   * last: whatever the API answers, the next honeytoken report is delivered again.
   */
  lemma DeletedRowReportsAgain(config: Config, w: World, ip: IP, answer: Answer) returns (events: seq<Event>)
    requires Distinct(w.gate.l1) && Blocks(config, w) && !Lapsed(w, ip)
    requires Find(w.gate.l1, ip).Some? && Find(w.gate.l1, ip).value.Expired(w.clock)
    requires ip in w.flights ==> w.flights[ip].Refreshing?
    ensures var t := Next(config, w, Foreground(Check(ip, w.clock, w.clock, answer, NO_FAULTS)));
            Makes(config, Next(config, t, Foreground(ReportThreat(ip, true, w.clock, NO_FAULTS))), events, ip, 1)
  {
    TouchEverywhere(w.gate.l1, ip, w.clock);
    var t := Next(config, w, Foreground(Check(ip, w.clock, w.clock, answer, NO_FAULTS)));
    assert ip in t.gate.l2 ==> !t.gate.l2[ip].reported;
    events := TripAndDeliver(config, t, ip);
  }

  /**
   * An expired copy beside a live reported threat row does occur: the flight carries the API's record,
   * a second honeytoken report replaces it in both stores for one tick, and the mark brings it back to
   * the table only.
   */
  lemma ExpiredCopyIsReachable(config: Config, ip: IP) returns (first: seq<Event>, second: seq<Event>)
    requires 0 < config.threshold <= 100 && config.ttl == 100 && config.blocking == For(1)
    requires config.limits.maxRetries > 0 && config.autoReport
    ensures var w := Final(config, Final(config, Booted(map[], 1), first), second);
            && !Lapsed(w, ip) && w.gate.l2[ip].status == Threat && w.gate.l2[ip].reported
            && Find(w.gate.l1, ip).Some? && Find(w.gate.l1, ip).value.Expired(w.clock)
            && w.flights == map[ip := Refreshing(w.gate.l2[ip])]
  {
    var trip, again := Foreground(ReportThreat(ip, true, 1, NO_FAULTS)), Foreground(ReportThreat(ip, true, 3, NO_FAULTS));
    var check := Foreground(Check(ip, 3, 3, Score(100), NO_FAULTS));
    first, second := [trip, Tick(3), check, Fetch(ip, false)], [again, Call(ip, true), Mark(ip, false), Tick(5)];
    FinalOfFour(config, Booted(map[], 1), trip, Tick(3), check, Fetch(ip, false));
    var w := Final(config, Booted(map[], 1), first);
    FetchedFromApi(config, ip);
    FinalOfFour(config, w, again, Call(ip, true), Mark(ip, false), Tick(5));
    MarkedBack(config, w, ip);
  }

  lemma MarkedBack(config: Config, w: World, ip: IP)
    requires config.threshold <= 100 && config.ttl == 100 && config.blocking == For(1)
    requires Distinct(w.gate.l1) && w.clock == 3 && w.gate.l2 == map[ip := ApiRecord(config, ip, 100, 3)]
    requires w.flights == map[ip := Calling(ApiRecord(config, ip, 100, 3))]
    ensures var again := Foreground(ReportThreat(ip, true, 3, NO_FAULTS));
            var t := Next(config, Next(config, Next(config, Next(config, w, again), Call(ip, true)), Mark(ip, false)), Tick(5));
            && t.clock == 5 && t.gate.l2 == map[ip := ApiRecord(config, ip, 100, 3).(reported := true)]
            && Find(t.gate.l1, ip) == Some(HoneyRecord(config, ip, 3))
            && t.flights == map[ip := Refreshing(t.gate.l2[ip])]
  {
    var w1 := Next(config, w, Foreground(ReportThreat(ip, true, 3, NO_FAULTS)));
    PutEverywhere(w.gate.l1, config.maxSize, ip, HoneyRecord(config, ip, 3), 3);
    assert w1.flights == w.flights && w1.gate.l2 == map[ip := HoneyRecord(config, ip, 3)];
    var w2 := Next(config, w1, Call(ip, true));
    assert w2.flights == map[ip := Marking(ApiRecord(config, ip, 100, 3).(reported := true))];
  }

  lemma FetchedFromApi(config: Config, ip: IP)
    requires 0 < config.threshold <= 100 && config.ttl == 100 && config.blocking == For(1)
    requires config.limits.maxRetries > 0 && config.autoReport
    ensures var trip, check := Foreground(ReportThreat(ip, true, 1, NO_FAULTS)), Foreground(Check(ip, 3, 3, Score(100), NO_FAULTS));
            var w := Next(config, Next(config, Next(config, Next(config, Booted(map[], 1), trip), Tick(3)), check), Fetch(ip, false));
            && Distinct(w.gate.l1) && w.clock == 3 && w.gate.l2 == map[ip := ApiRecord(config, ip, 100, 3)]
            && w.flights == map[ip := Calling(ApiRecord(config, ip, 100, 3))]
  {
    var trip, check := Foreground(ReportThreat(ip, true, 1, NO_FAULTS)), Foreground(Check(ip, 3, 3, Score(100), NO_FAULTS));
    var w1 := Next(config, Booted(map[], 1), trip);
    PutEverywhere([], config.maxSize, ip, HoneyRecord(config, ip, 1), 1);
    TouchEverywhere(w1.gate.l1, ip, 3);
    var w3 := Next(config, Next(config, w1, Tick(3)), check);
    assert w3.gate.l2[ip] == ApiRecord(config, ip, 100, 3);
    assert w3.gate.l2 == map[ip := ApiRecord(config, ip, 100, 3)];
    var touched := Touch(w1.gate.l1, ip, 3);
    TouchEverywhere(touched, ip, 3);
    WithoutEverywhere(Touch(touched, ip, 3), ip);
    PutEverywhere(Without(Touch(touched, ip, 3), ip), config.maxSize, ip, ApiRecord(config, ip, 100, 3), 3);
  }
}
