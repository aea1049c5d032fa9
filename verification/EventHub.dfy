/**
 * The event service as a state machine over its steps: publishing into a bounded queue, the
 * processor that stores and fans out, and subscribers that come, read and go. Conservation and the
 * order each subscriber sees are invariants of every interleaving.
 */
module EventHub {
  import opened Records
  import opened Sequences
  import opened EventLog

  const QUEUE: nat := 10000
  const BUFFER: nat := 100

  /** A send that gives up when the channel is full. */
  function Offer(buffer: seq<Event>, capacity: nat, e: Event): seq<Event> {
    if |buffer| < capacity then buffer + [e] else buffer
  }

  /** `Publish` fills in the source and leaves the id to the table. */
  function Published(e: Event): Event {
    e.(id := 0, source := if e.source == "" then "System" else e.source)
  }

  /** How an insert ends; the driver may store the row and yet not tell its id. */
  datatype Insert = Stored | StoredUnnamed | Failed

  function AfterInsert(log: Log, e: Event, how: Insert): (Log, Event) {
    match how
    case Stored => (Inserted(log, e), e.(id := log.lastId + 1))
    case StoredUnnamed => (Inserted(log, e), e)
    case Failed => (log, e)
  }

  /**
   * One subscription: what was read, what waits in the channel, when it joined and left counted in
   * processed events, and how many of those in between found the channel full.
   */
  datatype Sub = Sub(received: seq<Event>, buffer: seq<Event>, joined: nat, left: Option<nat>, missed: nat)
  {
    function Stream(): seq<Event> { received + buffer }
  }

  /** The channels by identity; `inHand` is the event between its insert and its fan-out. */
  datatype Hub = Hub(
    queue: seq<Event>,
    inHand: Option<Event>,
    log: Log,
    subs: map<nat, Sub>,
    // history
    accepted: seq<Event>,
    dropped: nat,
    published: nat,
    taken: seq<(Event, bool)>,
    processed: seq<Event>)

  /** A service that has just started over the table it finds. */
  function Opened(base: Log): Hub {
    Hub([], None, base, map[], [], 0, 0, [], [])
  }

  datatype Step =
    | Publish(event: Event)
    | Take(how: Insert)
    | Broadcast
    | Subscribe(id: nat)
    | Unsubscribe(id: nat)
    | Receive(id: nat)

  function Fanned(sub: Sub, e: Event): Sub {
    if sub.left.Some? then sub
    else sub.(buffer := Offer(sub.buffer, BUFFER, e), missed := sub.missed + if |sub.buffer| < BUFFER then 0 else 1)
  }

  /** One step; a step that is not enabled changes nothing. */
  function Next(h: Hub, step: Step): Hub {
    match step
    case Publish(event) =>
      var e := Published(event);
      if |h.queue| < QUEUE
      then h.(queue := h.queue + [e], accepted := h.accepted + [e], published := h.published + 1)
      else h.(dropped := h.dropped + 1, published := h.published + 1)
    case Take(how) =>
      if h.queue == [] || h.inHand.Some? then h
      else
        var (log, e) := AfterInsert(h.log, h.queue[0], how);
        h.(queue := h.queue[1..], inHand := Some(e), log := log, taken := h.taken + [(h.queue[0], how != Failed)])
    case Broadcast =>
      if h.inHand.None? then h
      else
        var e := h.inHand.value;
        h.(inHand := None, processed := h.processed + [e],
           subs := map c | c in h.subs :: Fanned(h.subs[c], e))
    case Subscribe(id) =>
      if id in h.subs then h else h.(subs := h.subs[id := Sub([], [], |h.processed|, None, 0)])
    case Unsubscribe(id) =>
      if id !in h.subs || h.subs[id].left.Some? then h
      else h.(subs := h.subs[id := h.subs[id].(left := Some(|h.processed|))])
    case Receive(id) =>
      if id !in h.subs || h.subs[id].buffer == [] then h
      else
        var sub := h.subs[id];
        h.(subs := h.subs[id := sub.(received := sub.received + [sub.buffer[0]], buffer := sub.buffer[1..])])
  }

  function After(base: Log, steps: seq<Step>): Hub {
    if steps == [] then Opened(base) else Next(After(base, steps[..|steps| - 1]), steps[|steps| - 1])
  }

  lemma AfterStep(base: Log, steps: seq<Step>, step: Step)
    ensures After(base, steps + [step]) == Next(After(base, steps), step)
  {
    assert (steps + [step])[..|steps|] == steps;
  }

  // ---------- each step by itself ----------

  /**
   * An event is accepted exactly while fewer than 10000 wait, and then waits last, without an id, with
   * every field it came with except an empty source, which becomes "System"; otherwise it is dropped.
   */
  lemma PublishIsExact(h: Hub, e: Event)
    ensures var t := Next(h, Publish(e));
            var source := if e.source == "" then "System" else e.source;
            && t.published == h.published + 1
            && (if |h.queue| < 10000
                then t.queue == h.queue + [Event(0, e.ip, e.targetHost, e.targetPath, e.action, source, e.timestamp)]
                     && t.dropped == h.dropped
                else t.queue == h.queue && t.dropped == h.dropped + 1)
            && t.log == h.log && t.subs == h.subs && t.inHand == h.inHand
  {
  }

  /**
   * The event in hand goes to every subscriber that is still subscribed and has fewer than 100 waiting,
   * behind what waits there; a full one misses it, and one that left is not touched.
   */
  lemma BroadcastIsExact(h: Hub, c: nat)
    requires h.inHand.Some? && c in h.subs
    ensures var before, after := h.subs[c], Next(h, Broadcast).subs[c];
            && after.received == before.received && after.joined == before.joined && after.left == before.left
            && (if before.left.None? && |before.buffer| < 100
                then after.buffer == before.buffer + [h.inHand.value] && after.missed == before.missed
                else after.buffer == before.buffer
                     && after.missed == before.missed + if before.left.None? then 1 else 0)
            && Next(h, Broadcast).inHand.None? && Next(h, Broadcast).processed == h.processed + [h.inHand.value]
  {
  }

  /**
   * The processor takes the oldest waiting event and stores it; it hands it on whether or not that
   * works, under its new id if the driver told it.
   */
  lemma TakeIsExact(h: Hub, how: Insert)
    requires h.queue != [] && h.inHand.None?
    ensures var t := Next(h, Take(how));
            var e := h.queue[0];
            && t.queue == h.queue[1..]
            && t.log == (if how == Failed then h.log else Log(h.log.rows + [e.(id := h.log.lastId + 1)], h.log.lastId + 1))
            && t.inHand == Some(if how == Stored then e.(id := h.log.lastId + 1) else e)
            && t.subs == h.subs
  {
  }

  /** Subscribing opens an empty channel, leaving closes it with what it holds, reading takes the oldest event. */
  lemma SubscriptionIsExact(h: Hub, c: nat)
    ensures c !in h.subs ==>
              Next(h, Subscribe(c)).subs == h.subs[c := Sub([], [], |h.processed|, None, 0)]
    ensures c in h.subs && h.subs[c].left.None? ==>
              Next(h, Unsubscribe(c)).subs == h.subs[c := h.subs[c].(left := Some(|h.processed|))]
    ensures c in h.subs && h.subs[c].buffer != [] ==>
              var sub := h.subs[c];
              Next(h, Receive(c)).subs
              == h.subs[c := sub.(received := sub.received + [sub.buffer[0]], buffer := sub.buffer[1..])]
  {
  }

  // ---------- conservation ----------

  function Events(taken: seq<(Event, bool)>): seq<Event> {
    if taken == [] then [] else [taken[0].0] + Events(taken[1..])
  }

  function Succeeded(): ((Event, bool)) -> bool {
    (t: (Event, bool)) => t.1
  }

  /** The rows without their ids: what was asked to be stored. */
  function Unnamed(rows: seq<Event>): seq<Event> {
    seq(|rows|, i requires 0 <= i < |rows| => rows[i].(id := 0))
  }

  lemma {:induction false} EventsAppend(s: seq<(Event, bool)>, t: seq<(Event, bool)>)
    ensures Events(s + t) == Events(s) + Events(t)
  {
    if s == [] {
      assert s + t == t;
    } else {
      assert (s + t)[1..] == s[1..] + t;
      EventsAppend(s[1..], t);
    }
  }

  /** The queue's side: nothing is lost between publishing and taking, and the order is kept. */
  ghost predicate Counted(h: Hub) {
    && h.published == h.dropped + |h.queue| + |h.taken|
    && h.accepted == Events(h.taken) + h.queue
    && |h.queue| <= QUEUE
    && (forall e :: e in h.queue ==> e.id == 0)
  }

  /** The table's side: what it held, then exactly the taken events whose insert succeeded, under ids that count up. */
  ghost predicate Logged(base: Log, log: Log, taken: seq<(Event, bool)>) {
    && WellFormed(log) && base.rows <= log.rows
    && log.lastId - base.lastId == |log.rows| - |base.rows|
    && Unnamed(log.rows[|base.rows|..]) == Events(Keep(Succeeded(), taken))
  }

  ghost predicate Conserved(base: Log, h: Hub) {
    Counted(h) && Logged(base, h.log, h.taken)
  }

  lemma TakeCounts(h: Hub, how: Insert)
    requires Counted(h) && h.queue != [] && h.inHand.None?
    ensures Counted(Next(h, Take(how)))
  {
    EventsAppend(h.taken, [(h.queue[0], how != Failed)]);
    assert Events([(h.queue[0], how != Failed)]) == [h.queue[0]];
    assert h.queue == [h.queue[0]] + h.queue[1..];
    assert Events(h.taken) + [h.queue[0]] + h.queue[1..] == Events(h.taken) + h.queue;
  }

  lemma InsertLogs(base: Log, log: Log, taken: seq<(Event, bool)>, e: Event, how: Insert)
    requires Logged(base, log, taken) && e.id == 0
    ensures Logged(base, AfterInsert(log, e, how).0, taken + [(e, how != Failed)])
  {
    var one, n := [(e, how != Failed)], |base.rows|;
    KeepAppend(Succeeded(), taken, one);
    assert Keep(Succeeded(), one) == if how != Failed then one else [];
    EventsAppend(Keep(Succeeded(), taken), Keep(Succeeded(), one));
    if how != Failed {
      assert Events(one) == [e];
      assert Unnamed(Inserted(log, e).rows[n..]) == Unnamed(log.rows[n..]) + [e];
    }
  }

  lemma PublishCounts(h: Hub, e: Event)
    requires Counted(h)
    ensures Counted(Next(h, Publish(e)))
  {
    assert h.accepted + [Published(e)] == Events(h.taken) + (h.queue + [Published(e)]);
  }

  lemma StepConserves(base: Log, h: Hub, step: Step)
    requires Conserved(base, h)
    ensures Conserved(base, Next(h, step))
  {
    match step
    case Publish(e) => PublishCounts(h, e);
    case Take(how) =>
      if h.queue != [] && h.inHand.None? {
        assert h.queue[0] in h.queue;
        TakeCounts(h, how);
        InsertLogs(base, h.log, h.taken, h.queue[0], how);
      }
    case _ => SameHistory(base, h, Next(h, step));
  }

  lemma SameHistory(base: Log, h: Hub, t: Hub)
    requires Conserved(base, h) && t.queue == h.queue && t.log == h.log && t.accepted == h.accepted
    requires t.dropped == h.dropped && t.published == h.published && t.taken == h.taken
    ensures Conserved(base, t)
  {
  }

  /**
   * Conservation over every interleaving: published events are dropped, queued or taken; what was
   * accepted is taken in that order; the table holds what it held before and then exactly the taken
   * events whose insert succeeded, in order, under ids that count up.
   */
  lemma {:induction false} EventsAreConserved(base: Log, steps: seq<Step>)
    requires WellFormed(base)
    ensures Conserved(base, After(base, steps))
  {
    if steps == [] {
    } else {
      EventsAreConserved(base, steps[..|steps| - 1]);
      StepConserves(base, After(base, steps[..|steps| - 1]), steps[|steps| - 1]);
    }
  }

  /** A publisher finds 10000 events waiting. */
  predicate Refuses(h: Hub, step: Step) {
    step.Publish? && |h.queue| >= 10000
  }

  /** An event is handed out while `c` is subscribed and 100 events wait in its channel. */
  predicate Loses(h: Hub, step: Step, c: nat) {
    step.Broadcast? && h.inHand.Some? && c in h.subs && h.subs[c].left.None? && |h.subs[c].buffer| >= 100
  }

  /** How many steps of the run satisfy `p` in the state they start from. */
  ghost function Moments(base: Log, steps: seq<Step>, p: (Hub, Step) -> bool): nat {
    if steps == [] then 0
    else
      var before, last := steps[..|steps| - 1], steps[|steps| - 1];
      Moments(base, before, p) + if p(After(base, before), last) then 1 else 0
  }

  /** An event is dropped exactly when 10000 others wait at the moment it is published. */
  lemma {:induction false} DropsAreRefusals(base: Log, steps: seq<Step>)
    ensures After(base, steps).dropped == Moments(base, steps, Refuses)
  {
    if steps == [] {
    } else {
      var n := |steps| - 1;
      DropsAreRefusals(base, steps[..n]);
      DropStep(After(base, steps[..n]), steps[n]);
    }
  }

  lemma DropStep(h: Hub, step: Step)
    ensures Next(h, step).dropped == h.dropped + if Refuses(h, step) then 1 else 0
  {
  }

  /** A subscriber misses an event exactly when 100 others wait for it at that moment. */
  lemma {:induction false} MissesAreLosses(base: Log, steps: seq<Step>, c: nat)
    ensures var lost := Moments(base, steps, (h, step) => Loses(h, step, c));
            lost == Missed(After(base, steps), c)
  {
    var p := (h, step) => Loses(h, step, c);
    if steps == [] {
    } else {
      var n := |steps| - 1;
      MissesAreLosses(base, steps[..n], c);
      MissStep(After(base, steps[..n]), steps[n], c);
    }
  }

  function Missed(h: Hub, c: nat): nat {
    if c in h.subs then h.subs[c].missed else 0
  }

  lemma MissStep(h: Hub, step: Step, c: nat)
    ensures Missed(Next(h, step), c) == Missed(h, c) + if Loses(h, step, c) then 1 else 0
  {
  }

  // ---------- fan-out ----------

  /** The events processed while the subscription was open. */
  function Share(h: Hub, sub: Sub): seq<Event>
    requires sub.joined <= End(h, sub) <= |h.processed|
  {
    h.processed[sub.joined..End(h, sub)]
  }

  function End(h: Hub, sub: Sub): nat {
    if sub.left.Some? then sub.left.value else |h.processed|
  }

  ghost predicate Faithful(h: Hub, sub: Sub) {
    && sub.joined <= End(h, sub) <= |h.processed|
    && |sub.buffer| <= BUFFER
    && Subseq(sub.Stream(), Share(h, sub))
    && |sub.Stream()| + sub.missed == |Share(h, sub)|
    && (sub.missed == 0 ==> sub.Stream() == Share(h, sub))
  }

  ghost predicate AllFaithful(h: Hub) {
    forall c :: c in h.subs ==> Faithful(h, h.subs[c])
  }

  lemma SliceAppend(s: seq<Event>, e: Event, a: nat, b: nat)
    requires a <= b <= |s|
    ensures (s + [e])[a..b] == s[a..b]
    ensures (s + [e])[a..|s| + 1] == s[a..|s|] + [e]
  {
  }

  lemma FannedIsFaithful(h: Hub, sub: Sub, e: Event)
    requires Faithful(h, sub) && h.inHand == Some(e)
    ensures Faithful(Next(h, Broadcast), Fanned(sub, e))
  {
    var t := Next(h, Broadcast);
    var after := Fanned(sub, e);
    SliceAppend(h.processed, e, sub.joined, End(h, sub));
    if sub.left.None? {
      assert Share(t, after) == Share(h, sub) + [e];
      SubseqAppend(sub.Stream(), Share(h, sub), e);
      if |sub.buffer| < BUFFER {
        assert after.Stream() == sub.Stream() + [e];
      }
    } else {
      assert Share(t, after) == Share(h, sub);
    }
  }

  /** A subscription whose stream and share did not change stays faithful. */
  lemma SameStream(h: Hub, t: Hub, before: Sub, after: Sub)
    requires Faithful(h, before) && |after.buffer| <= BUFFER
    requires t.processed == h.processed && after.joined == before.joined && after.missed == before.missed
    requires after.Stream() == before.Stream() && End(t, after) == End(h, before)
    ensures Faithful(t, after)
  {
  }

  lemma SubStaysFaithful(h: Hub, step: Step, c: nat)
    requires AllFaithful(h) && c in Next(h, step).subs
    ensures Faithful(Next(h, step), Next(h, step).subs[c])
  {
    var t := Next(h, step);
    if step.Broadcast? && h.inHand.Some? {
      FannedIsFaithful(h, h.subs[c], h.inHand.value);
    } else if c in h.subs {
      OtherStepsKeepStream(h, step, c);
      SameStream(h, t, h.subs[c], t.subs[c]);
    }
  }

  lemma OtherStepsKeepStream(h: Hub, step: Step, c: nat)
    requires c in h.subs && (step.Broadcast? ==> h.inHand.None?)
    requires h.subs[c].left.Some? ==> h.subs[c].left.value <= |h.processed|
    ensures var before, after := h.subs[c], Next(h, step).subs[c];
            && after.Stream() == before.Stream() && |after.buffer| <= |before.buffer|
            && after.joined == before.joined && after.missed == before.missed
            && End(Next(h, step), after) == End(h, before)
  {
    if step.Receive? && step.id == c && h.subs[c].buffer != [] {
      var sub := h.subs[c];
      assert sub.buffer == [sub.buffer[0]] + sub.buffer[1..];
      assert sub.received + [sub.buffer[0]] + sub.buffer[1..] == sub.received + sub.buffer;
    }
  }

  lemma StepIsFaithful(h: Hub, step: Step)
    requires AllFaithful(h)
    ensures AllFaithful(Next(h, step))
  {
    forall c | c in Next(h, step).subs
      ensures Faithful(Next(h, step), Next(h, step).subs[c])
    {
      SubStaysFaithful(h, step, c);
    }
  }

  /**
   * Fan-out over every interleaving: what a subscriber has read and can still read is a subsequence
   * of the events processed while it was subscribed, short by exactly the events that found its
   * channel full, and all of them in order if none did.
   */
  lemma {:induction false} SubscribersSeeTheirShare(base: Log, steps: seq<Step>)
    ensures AllFaithful(After(base, steps))
  {
    if steps == [] {
    } else {
      SubscribersSeeTheirShare(base, steps[..|steps| - 1]);
      StepIsFaithful(After(base, steps[..|steps| - 1]), steps[|steps| - 1]);
    }
  }

  /** A channel that was unsubscribed is never sent to: only what it held can still be read. */
  lemma {:induction false} ClosedChannelsStayQuiet(h: Hub, steps: seq<Step>, c: nat)
    requires c in h.subs && h.subs[c].left.Some?
    ensures var t := Continue(h, steps);
            && c in t.subs && t.subs[c].Stream() == h.subs[c].Stream()
            && t.subs[c].left == h.subs[c].left && t.subs[c].missed == h.subs[c].missed
    decreases |steps|
  {
    if steps == [] {
    } else {
      var t := Next(h, steps[0]);
      assert t.subs[c].Stream() == h.subs[c].Stream();
      ClosedChannelsStayQuiet(t, steps[1..], c);
    }
  }

  function Continue(h: Hub, steps: seq<Step>): Hub
    decreases |steps|
  {
    if steps == [] then h else Continue(Next(h, steps[0]), steps[1..])
  }

  // ---------- ids ----------

  /** Ids that were given out strictly increase; 0 marks an event without one. */
  ghost predicate Rising(s: seq<Event>) {
    forall i, j :: 0 <= i < j < |s| && s[i].id != 0 && s[j].id != 0 ==> s[i].id < s[j].id
  }

  ghost predicate IdsInOrder(h: Hub) {
    IdsFit(h.processed, h.inHand, h.log.lastId)
  }

  ghost predicate IdsFit(processed: seq<Event>, inHand: Option<Event>, lastId: nat) {
    && Rising(processed)
    && (forall e :: e in processed ==> e.id <= lastId)
    && (inHand.Some? ==>
          && inHand.value.id <= lastId
          && (inHand.value.id != 0 ==> forall e :: e in processed ==> e.id < inHand.value.id))
  }

  lemma InsertKeepsIds(processed: seq<Event>, log: Log, e: Event, how: Insert)
    requires IdsFit(processed, None, log.lastId) && e.id == 0
    ensures var (after, named) := AfterInsert(log, e, how); IdsFit(processed, Some(named), after.lastId)
  {
  }

  lemma BroadcastKeepsIds(processed: seq<Event>, e: Event, lastId: nat)
    requires IdsFit(processed, Some(e), lastId)
    ensures IdsFit(processed + [e], None, lastId)
  {
    RisingAppend(processed, e);
  }

  lemma StepKeepsIds(h: Hub, step: Step)
    requires Counted(h) && IdsInOrder(h)
    ensures IdsInOrder(Next(h, step))
  {
    if step.Take? && h.queue != [] && h.inHand.None? {
      assert h.queue[0] in h.queue;
      InsertKeepsIds(h.processed, h.log, h.queue[0], step.how);
    } else if step.Broadcast? && h.inHand.Some? {
      BroadcastKeepsIds(h.processed, h.inHand.value, h.log.lastId);
    } else {
      SameIds(h, step);
    }
  }

  lemma SameIds(h: Hub, step: Step)
    requires !(step.Take? && h.queue != [] && h.inHand.None?) && !(step.Broadcast? && h.inHand.Some?)
    ensures var t := Next(h, step); t.processed == h.processed && t.inHand == h.inHand && t.log == h.log
  {
  }

  lemma RisingAppend(s: seq<Event>, e: Event)
    requires Rising(s) && (e.id != 0 ==> forall x :: x in s ==> x.id < e.id)
    ensures Rising(s + [e])
  {
    assert forall i :: 0 <= i < |s| ==> (s + [e])[i] in s;
  }

  lemma {:induction false} IdsRise(base: Log, steps: seq<Step>)
    requires WellFormed(base)
    ensures IdsInOrder(After(base, steps))
  {
    if steps == [] {
    } else {
      IdsRise(base, steps[..|steps| - 1]);
      EventsAreConserved(base, steps[..|steps| - 1]);
      StepKeepsIds(After(base, steps[..|steps| - 1]), steps[|steps| - 1]);
    }
  }

  lemma {:induction false} SubseqRising(s: seq<Event>, t: seq<Event>)
    requires Subseq(s, t) && Rising(t)
    ensures Rising(s)
  {
    if s == [] {
    } else {
      assert s == [s[0]] + s[1..] && t == [t[0]] + t[1..];
      assert forall i :: 0 <= i < |t| - 1 ==> t[1..][i] == t[i + 1];
      if s[0] == t[0] && Subseq(s[1..], t[1..]) {
        SubseqRising(s[1..], t[1..]);
        SubseqMembers(s[1..], t[1..]);
        RisingCons(s[0], s[1..], t[1..]);
      } else {
        SubseqRising(s, t[1..]);
      }
    }
  }

  lemma RisingCons(e: Event, s: seq<Event>, t: seq<Event>)
    requires Rising([e] + t) && Rising(s) && forall x :: x in s ==> x in t
    ensures Rising([e] + s)
  {
    forall i | 0 <= i < |s| && s[i].id != 0 && e.id != 0
      ensures e.id < s[i].id
    {
      assert s[i] in s;
      var k :| 0 <= k < |t| && t[k] == s[i];
      assert ([e] + t)[k + 1] == s[i] && ([e] + t)[0] == e;
    }
  }

  /** Every subscriber sees stored events under strictly rising ids, hence none twice. */
  lemma SubscribersSeeRisingIds(base: Log, steps: seq<Step>, c: nat)
    requires WellFormed(base) && c in After(base, steps).subs
    ensures Rising(After(base, steps).subs[c].Stream())
  {
    var h := After(base, steps);
    SubscribersSeeTheirShare(base, steps);
    IdsRise(base, steps);
    SubseqRising(h.subs[c].Stream(), Share(h, h.subs[c]));
  }
}
