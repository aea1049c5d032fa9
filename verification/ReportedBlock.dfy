/**
 * A block while the background report runs in steps of its own. The mark writes back the record the
 * flight read earlier, so a flight can shorten a newer block; a block survives every interleaving
 * exactly when that record convicts for as long as the block lasts.
 */
module ReportedBlock {
  import opened Records
  import opened Recency
  import opened Table
  import opened Gate
  import opened Coherence
  import opened BlockPersistence
  import opened Reporting

  /** What the flight still writes keeps a block that lasts `until`: row and L1 entry, or only the L1 entry. */
  predicate Keeps(config: Config, flight: Flight, until: Instant) {
    if flight.Refreshing? then Lingers(config, flight.record, until) else Convicts(config, flight.record, until)
  }

  /** The stores convict `ip` until the given instant, and so does what a flight for it may write. */
  ghost predicate Held(config: Config, w: World, ip: IP, until: Instant) {
    && Sound(w) && Blocked(config, w.gate, ip, until)
    && (ip in w.flights ==> Keeps(config, w.flights[ip], until))
  }

  /** If the event is a check of `ip` at this instant and before `until`, it says threat or cannot be answered. */
  ghost predicate Refuses(config: Config, w: World, e: Event, ip: IP, until: Instant) {
    e.Foreground? && e.op.Check? && e.op.ip == ip && e.op.now == w.clock < until ==>
      var o := Step(config, w.gate, e.op);
      if Unreadable(w.gate, e.op) then GivesUp((o.reply, o.asked)) else SaysThreat((o.reply, o.asked))
  }

  ghost predicate AllRefused(config: Config, w: World, events: seq<Event>, ip: IP, until: Instant)
    decreases |events|
  {
    events == [] ||
    (Refuses(config, w, events[0], ip, until) && AllRefused(config, Next(config, w, events[0]), events[1..], ip, until))
  }

  lemma ForegroundKeepsHeld(config: Config, w: World, op: Op, ip: IP, until: Instant)
    requires Sane(config) && config.threshold <= 100 && w.clock < until <= BlockedUntil(config, w.clock)
    requires Held(config, w, ip, until)
    ensures Held(config, Next(config, w, Foreground(op)), ip, until)
    ensures Refuses(config, w, Foreground(op), ip, until)
  {
    NextKeepsSound(config, w, Foreground(op));
    if op.now == w.clock {
      StepKeepsBlocked(config, w.gate, ip, until, op);
    }
  }

  lemma FlightKeepsHeld(config: Config, w: World, e: Event, ip: IP, until: Instant)
    requires Sane(config) && w.clock < until && Held(config, w, ip, until) && (e.Mark? || e.Refresh?)
    ensures Held(config, Next(config, w, e), ip, until)
  {
    NextKeepsSound(config, w, e);
    if e.ip in w.flights {
      assert Carries(w.flights[e.ip], e.ip);
      PutKeepsBlocked(config, w.gate, ip, until, e.ip, w.flights[e.ip].record, w.clock);
    }
  }

  lemma NextKeepsHeld(config: Config, w: World, e: Event, ip: IP, until: Instant)
    requires Sane(config) && config.threshold <= 100 && w.clock < until <= BlockedUntil(config, w.clock)
    requires Held(config, w, ip, until)
    ensures Held(config, Next(config, w, e), ip, until)
    ensures Refuses(config, w, e, ip, until)
  {
    NextKeepsSound(config, w, e);
    if e.Foreground? {
      ForegroundKeepsHeld(config, w, e.op, ip, until);
    } else if e.Mark? || e.Refresh? {
      FlightKeepsHeld(config, w, e, ip, until);
    }
  }

  lemma {:induction false} LaterIsFree(config: Config, w: World, events: seq<Event>, ip: IP, until: Instant)
    requires w.clock >= until
    ensures AllRefused(config, w, events, ip, until)
    decreases |events|
  {
    if events == [] {
    } else {
      LaterIsFree(config, Next(config, w, events[0]), events[1..], ip, until);
    }
  }

  lemma {:induction false} HeldRefuses(config: Config, w: World, events: seq<Event>, ip: IP, until: Instant)
    requires Sane(config) && config.threshold <= 100 && until <= BlockedUntil(config, w.clock)
    requires Held(config, w, ip, until)
    ensures AllRefused(config, w, events, ip, until)
    decreases |events|
  {
    if events == [] {
    } else if w.clock >= until {
      LaterIsFree(config, w, events, ip, until);
    } else {
      NextKeepsHeld(config, w, events[0], ip, until);
      HeldRefuses(config, Next(config, w, events[0]), events[1..], ip, until);
    }
  }

  lemma {:induction false} RunKeepsDistinct(config: Config, w: World, events: seq<Event>)
    requires Distinct(w.gate.l1)
    ensures Distinct(Final(config, w, events).gate.l1)
    decreases |events|
  {
    if events == [] {
    } else {
      NextKeepsDistinct(config, w, events[0]);
      RunKeepsDistinct(config, Next(config, w, events[0]), events[1..]);
    }
  }

  lemma NextKeepsDistinct(config: Config, w: World, e: Event)
    requires Distinct(w.gate.l1)
    ensures Distinct(Next(config, w, e).gate.l1)
  {
    if e.Foreground? {
      StepKeepsShape(config, w.gate, e.op);
    } else if e.Refresh? && e.ip in w.flights {
      PutEverywhere(w.gate.l1, config.maxSize, e.ip, w.flights[e.ip].record, w.clock);
    }
  }

  // ---------- a flight that ends the block early ----------

  /** A string that is longer than every address of a finite set is a new address. */
  lemma NewAddress(known: set<IP>) returns (ip: IP)
    ensures forall a :: a in known ==> |a| < |ip|
  {
    ip := "x";
    var rest := known;
    while rest != {}
      invariant rest <= known
      invariant forall a :: a in known - rest ==> |a| < |ip|
      decreases rest
    {
      var a :| a in rest;
      rest := rest - {a};
      if |ip| <= |a| {
        ip := a + "x";
      }
    }
  }

  /** How many insertions of new addresses L1 takes before it evicts the entry at `k`. */
  function Patience(s: seq<Entry>, maxSize: int, k: nat): nat
    requires k < |s|
  {
    |s| - k + if |s| < maxSize then maxSize - |s| else 0
  }

  /** Reports of new addresses; they touch neither the row nor the flight of `ip`. */
  ghost predicate Aside(w: World, t: World, ip: IP) {
    && t.clock == w.clock && t.flights == w.flights && Distinct(t.gate.l1)
    && ip in w.gate.l2 && ip in t.gate.l2 && t.gate.l2[ip] == w.gate.l2[ip]
  }

  /** Other traffic can always evict an address from L1. */
  lemma {:induction false} Crowd(config: Config, w: World, ip: IP, k: nat) returns (events: seq<Event>)
    requires Distinct(w.gate.l1) && ip in w.gate.l2
    requires k < |w.gate.l1| && w.gate.l1[k].ip == ip
    ensures Aside(w, Final(config, w, events), ip) && Find(Final(config, w, events).gate.l1, ip).None?
    decreases Patience(w.gate.l1, config.maxSize, k)
  {
    var s := w.gate.l1;
    var other := NewAddress(w.gate.l2.Keys + set e | e in s :: e.ip);
    var trip := Foreground(ReportThreat(other, true, w.clock, NO_FAULTS));
    var t := Next(config, w, trip);
    Insertion(config, w, ip, k, other);
    if |s| >= config.maxSize && k == |s| - 1 {
      events := [trip] + [];
      FinalStep(config, w, trip, []);
    } else {
      var rest := Crowd(config, t, ip, k + 1);
      events := [trip] + rest;
      FinalStep(config, w, trip, rest);
    }
  }

  /** One such report pushes the entry at `k` one place down, or out. */
  lemma Insertion(config: Config, w: World, ip: IP, k: nat, other: IP)
    requires Distinct(w.gate.l1) && ip in w.gate.l2
    requires k < |w.gate.l1| && w.gate.l1[k].ip == ip
    requires other !in w.gate.l2 && forall e :: e in w.gate.l1 ==> e.ip != other
    ensures var s, t := w.gate.l1, Next(config, w, Foreground(ReportThreat(other, true, w.clock, NO_FAULTS)));
            && Aside(w, t, ip)
            && if |s| >= config.maxSize && k == |s| - 1 then Find(t.gate.l1, ip).None?
               else k + 1 < |t.gate.l1| && t.gate.l1[k + 1].ip == ip
                    && Patience(t.gate.l1, config.maxSize, k + 1) < Patience(s, config.maxSize, k)
  {
    var s, t := w.gate.l1, Next(config, w, Foreground(ReportThreat(other, true, w.clock, NO_FAULTS)));
    OtherIsNew(config, w, other);
    PutEverywhere(s, config.maxSize, other, HoneyRecord(config, other, w.clock), w.clock);
    if |s| >= config.maxSize && k == |s| - 1 {
      assert s[k] in s;
      GoneFrom(t.gate.l1, s, k);
    } else {
      assert t.gate.l1[k + 1] == s[k];
    }
  }

  /** What L1 looks like after the report of a new address. */
  lemma OtherIsNew(config: Config, w: World, other: IP)
    requires other !in w.gate.l2 && forall e :: e in w.gate.l1 ==> e.ip != other
    ensures var t := Next(config, w, Foreground(ReportThreat(other, true, w.clock, NO_FAULTS)));
            && t.gate.l1 == [Entry(other, HoneyRecord(config, other, w.clock), w.clock)] + Evict(w.gate.l1, config.maxSize)
            && t.clock == w.clock && t.flights == w.flights
            && forall a :: a in w.gate.l2 ==> a in t.gate.l2 && t.gate.l2[a] == w.gate.l2[a]
  {
    FindMembers(w.gate.l1, other);
  }

  /** The last entry of a full list is gone after the next insertion. */
  lemma GoneFrom(t: seq<Entry>, s: seq<Entry>, k: nat)
    requires Distinct(s) && k == |s| - 1 && |t| == |s| && t[1..] == s[..k] && t[0].ip != s[k].ip
    ensures Find(t, s[k].ip).None?
  {
    FindMembers(t, s[k].ip);
    assert forall i :: 0 < i < |t| ==> t[i] == s[i - 1];
  }

  lemma RefusedStep(config: Config, w: World, e: Event, rest: seq<Event>, ip: IP, until: Instant)
    ensures AllRefused(config, w, [e] + rest, ip, until)
       <==> Refuses(config, w, e, ip, until) && AllRefused(config, Next(config, w, e), rest, ip, until)
  {
    assert ([e] + rest)[1..] == rest;
  }

  lemma {:induction false} RefusedAppend(config: Config, w: World, a: seq<Event>, b: seq<Event>, ip: IP, until: Instant)
    requires AllRefused(config, w, a + b, ip, until)
    ensures AllRefused(config, Final(config, w, a), b, ip, until)
    decreases |a|
  {
    if a == [] {
      assert a + b == b;
    } else {
      assert (a + b)[0] == a[0] && (a + b)[1..] == a[1..] + b;
      RefusedAppend(config, Next(config, w, a[0]), a[1..], b, ip, until);
    }
  }

  /** A check that the API would call safe. */
  function Probe(ip: IP, now: Instant): Event {
    Foreground(Check(ip, now, now, Score(0), NO_FAULTS))
  }

  /** With nothing live below L1, the probe gets no threat verdict. */
  lemma ProbePasses(config: Config, w: World, ip: IP, until: Instant)
    requires Distinct(w.gate.l1) && config.threshold > 0 && w.clock < until
    requires match Find(w.gate.l1, ip)
             case None => ip in w.gate.l2 ==> !w.gate.l2[ip].Live(w.clock)
             case Some(record) => record.Expired(w.clock) || record.score < config.threshold
    ensures !Refuses(config, w, Probe(ip, w.clock), ip, until)
  {
    TouchEverywhere(w.gate.l1, ip, w.clock);
  }

  /** Wait until `later`, then probe. */
  lemma WaitAndProbe(config: Config, w: World, ip: IP, later: Instant, until: Instant) returns (events: seq<Event>)
    requires Distinct(w.gate.l1) && config.threshold > 0 && w.clock <= later < until
    requires match Find(w.gate.l1, ip)
             case None => ip in w.gate.l2 ==> !w.gate.l2[ip].Live(later)
             case Some(record) => record.Expired(later) || record.score < config.threshold
    ensures !AllRefused(config, w, events, ip, until)
  {
    var t := Next(config, w, Tick(later));
    ProbePasses(config, t, ip, until);
    RefusedStep(config, t, Probe(ip, later), [], ip, until);
    RefusedStep(config, w, Tick(later), [Probe(ip, later)] + [], ip, until);
    events := [Tick(later)] + ([Probe(ip, later)] + []);
  }

  /** A row that expires too early ends the block: evict the address, wait, and check. */
  lemma RowEndsBlock(config: Config, w: World, ip: IP, until: Instant) returns (events: seq<Event>)
    requires Distinct(w.gate.l1) && config.threshold > 0 && w.clock < until
    requires ip in w.gate.l2 && w.gate.l2[ip].expiresAt < until
    ensures !AllRefused(config, w, events, ip, until)
  {
    var crowd := [];
    FindMembers(w.gate.l1, ip);
    if Find(w.gate.l1, ip).Some? {
      var k :| 0 <= k < |w.gate.l1| && w.gate.l1[k] == Slot(w.gate.l1, ip).value;
      crowd := Crowd(config, w, ip, k);
    }
    var t := Final(config, w, crowd);
    var later := if w.clock <= t.gate.l2[ip].expiresAt then t.gate.l2[ip].expiresAt else w.clock;
    var rest := WaitAndProbe(config, t, ip, later, until);
    events := crowd + rest;
    if AllRefused(config, w, events, ip, until) {
      RefusedAppend(config, w, crowd, rest, ip, until);
    }
  }

  /** So does an L1 entry that is no conviction or expires too early: the check then deletes the row as well. */
  lemma EntryEndsBlock(config: Config, w: World, ip: IP, until: Instant) returns (events: seq<Event>)
    requires Distinct(w.gate.l1) && config.threshold > 0 && w.clock < until
    requires Find(w.gate.l1, ip).Some? && !Lingers(config, Find(w.gate.l1, ip).value, until)
    ensures !AllRefused(config, w, events, ip, until)
  {
    var record := Find(w.gate.l1, ip).value;
    var later := if w.clock <= record.expiresAt && record.expiresAt + 1 < until then record.expiresAt + 1 else w.clock;
    events := WaitAndProbe(config, w, ip, later, until);
  }

  lemma FlightKeepsSound(w: World, config: Config, e: Event)
    requires Sound(w) && (e.Call? || e.Mark? || e.Refresh?)
    ensures Sound(Next(config, w, e))
  {
  }

  /** A flight that does not keep the block ends it in some run. */
  lemma {:induction false} FlightEndsBlock(config: Config, w: World, ip: IP, until: Instant) returns (events: seq<Event>)
    requires Sound(w) && Distinct(w.gate.l1) && config.threshold > 0 && w.clock < until
    requires ip in w.flights && !Keeps(config, w.flights[ip], until)
    ensures !AllRefused(config, w, events, ip, until)
    decreases if w.flights[ip].Calling? then 2 else if w.flights[ip].Marking? then 1 else 0
  {
    var flight := w.flights[ip];
    assert Carries(flight, ip);
    var e := if flight.Calling? then Call(ip, true) else if flight.Marking? then Mark(ip, false) else Refresh(ip);
    var t := Next(config, w, e);
    FlightKeepsSound(w, config, e);
    var rest;
    match flight {
      case Calling(record) =>
        rest := FlightEndsBlock(config, t, ip, until);
      case Marking(record) =>
        if record.expiresAt < until {
          assert t.gate.l2[ip] == record;
          rest := RowEndsBlock(config, t, ip, until);
        } else {
          rest := FlightEndsBlock(config, t, ip, until);
        }
      case Refreshing(record) =>
        PutEverywhere(w.gate.l1, config.maxSize, ip, record, w.clock);
        rest := EntryEndsBlock(config, t, ip, until);
    }
    RefusedStep(config, w, e, rest, ip, until);
    events := [e] + rest;
  }

  // ---------- the exact condition ----------

  /** Every run from `w` refuses `ip` until the block ends. */
  ghost predicate Endures(config: Config, w: World, ip: IP, until: Instant) {
    forall events :: AllRefused(config, w, events, ip, until)
  }

  lemma HeldEndures(config: Config, w: World, ip: IP, until: Instant)
    requires Sane(config) && config.threshold <= 100 && until <= BlockedUntil(config, w.clock)
    requires Held(config, w, ip, until)
    ensures Endures(config, w, ip, until)
  {
    forall events
      ensures AllRefused(config, w, events, ip, until)
    {
      HeldRefuses(config, w, events, ip, until);
    }
  }

  /**
   * A block that both stores hold survives every interleaving with background reports if and only if
   * a flight for the address, when there is one, keeps it.
   */
  lemma BlockEndures(config: Config, w: World, ip: IP, until: Instant)
    requires Sane(config) && 0 < config.threshold <= 100 && w.clock < until <= BlockedUntil(config, w.clock)
    requires Sound(w) && Blocked(config, w.gate, ip, until)
    ensures Endures(config, w, ip, until) <==> (ip in w.flights ==> Keeps(config, w.flights[ip], until))
  {
    if ip in w.flights ==> Keeps(config, w.flights[ip], until) {
      HeldEndures(config, w, ip, until);
    } else {
      var events := FlightEndsBlock(config, w, ip, until);
    }
  }

  /**
   * After any history, a report that writes blocks its address: every check before the block ends says
   * threat, or cannot be answered, in every interleaving if and only if a flight already under way for
   * the address carries a record that convicts as long as the block lasts.
   */
  lemma BlockPersistsUnderReports(config: Config, rows: Rows, clock: Instant, history: seq<Event>, op: Op)
    requires Sane(config) && 0 < config.threshold <= 100 && Stored(rows) && clock > ZERO_TIME
    requires var w := Final(config, Booted(rows, clock), history);
             && op.ReportThreat? && op.now == w.clock < BlockedUntil(config, w.clock)
             && Writes(w.gate, op.ip, op.parses, op.faults)
    ensures var w := Final(config, Booted(rows, clock), history);
            Endures(config, Next(config, w, Foreground(op)), op.ip, BlockedUntil(config, w.clock))
            <==> (op.ip in w.flights ==> Keeps(config, w.flights[op.ip], BlockedUntil(config, w.clock)))
  {
    var w := Final(config, Booted(rows, clock), history);
    RunKeepsSound(config, Booted(rows, clock), history);
    RunKeepsDistinct(config, Booted(rows, clock), history);
    ReportBlocks(config, w.gate, op.ip, op.parses, op.now, op.faults);
    NextKeepsSound(config, w, Foreground(op));
    BlockEndures(config, Next(config, w, Foreground(op)), op.ip, BlockedUntil(config, w.clock));
  }

  /**
   * A flight that does not keep the block occurs: a report at 1, fetched, and a second report at 5,
   * each blocking for ten ticks. The flight still carries the record that expires at 11.
   */
  lemma ShortFlightIsReachable(config: Config, ip: IP) returns (history: seq<Event>)
    requires Sane(config) && config.blocking == For(10) && config.autoReport && 0 < config.threshold <= 100
    ensures var w := Final(config, Booted(map[], 1), history);
            && w.clock == 5 && ip in w.gate.l2 && w.gate.l2[ip] == HoneyRecord(config, ip, 5)
            && w.flights == map[ip := Calling(HoneyRecord(config, ip, 1))]
            && !Endures(config, w, ip, 15)
  {
    var first := Foreground(ReportThreat(ip, true, 1, NO_FAULTS));
    var second := Foreground(ReportThreat(ip, true, 5, NO_FAULTS));
    history := [first, Fetch(ip, false), Tick(5), second];
    var w := Booted(map[], 1);
    var w1 := Next(config, w, first);
    var w2 := Next(config, w1, Fetch(ip, false));
    var w3 := Next(config, w2, Tick(5));
    FinalOfFour(config, w, first, Fetch(ip, false), Tick(5), second);
    RunKeepsSound(config, w, history);
    assert w1.gate.l2[ip] == HoneyRecord(config, ip, 1) && Waiting(w1, ip) == 1;
    assert w3.flights == map[ip := Calling(HoneyRecord(config, ip, 1))] && w3.clock == 5;
    ReportBlocks(config, w.gate, ip, true, 1, NO_FAULTS);
    ReportBlocks(config, w3.gate, ip, true, 5, NO_FAULTS);
    BlockEndures(config, Next(config, w3, second), ip, 15);
  }
}
