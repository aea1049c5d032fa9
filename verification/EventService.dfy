/**
 * The event service on the heap: bounded channels, the subscriber set and the processor's turn. The
 * service keeps, as ghost state, the steps of `EventHub` it has taken; every method extends them, so
 * what is proved of the hub holds of the objects.
 */
module EventService {
  import opened Records
  import opened EventLog
  import opened EventHub

  /** A buffered channel of events. */
  class Channel {
    var buffer: seq<Event>
    var open: bool
    const capacity: nat

    constructor (capacity: nat)
      ensures buffer == [] && open && this.capacity == capacity
    {
      buffer, open := [], true;
      this.capacity := capacity;
    }

    /** `select` with a default: sending on a closed channel would panic. */
    method TrySend(e: Event) returns (sent: bool)
      requires open
      modifies this`buffer
      ensures buffer == Offer(old(buffer), capacity, e)
      ensures sent == (|old(buffer)| < capacity)
    {
      sent := |buffer| < capacity;
      if sent {
        buffer := buffer + [e];
      }
    }

    method Receive() returns (e: Event)
      requires buffer != []
      modifies this`buffer
      ensures e == old(buffer)[0] && buffer == old(buffer)[1..]
    {
      e := buffer[0];
      buffer := buffer[1..];
    }

    /** Closing twice would panic. */
    method Close()
      requires open
      modifies this`open
      ensures !open
    {
      open := false;
    }
  }

  class Service {
    const eventRepo: EventRepository
    const eventChan: Channel
    var subscribers: set<Channel>
    const retentionDays: int
    /** The table as found, the steps taken since, and the hub's name for every channel ever given out. */
    ghost const base: Log
    ghost var steps: seq<Step>
    ghost var ids: map<Channel, nat>

    constructor (eventRepo: EventRepository, retentionDays: int)
      requires WellFormed(eventRepo.log)
      ensures Valid() && this.eventRepo == eventRepo && this.retentionDays == retentionDays
      ensures fresh(eventChan) && eventChan.buffer == [] && subscribers == {}
      ensures base == eventRepo.log && steps == [] && ids == map[]
    {
      this.eventRepo, this.retentionDays := eventRepo, retentionDays;
      eventChan := new Channel(QUEUE);
      subscribers := {};
      base, steps, ids := eventRepo.log, [], map[];
    }

    ghost function Hub(): EventHub.Hub
      reads this
    {
      After(base, steps)
    }

    /** The subscribers are exactly the channels that are still open, and the queue is none of them. */
    ghost predicate Wired()
      reads this, eventChan, ids.Keys
    {
      && eventChan.open && eventChan.capacity == QUEUE && eventChan !in ids && subscribers <= ids.Keys
      && (forall ch :: ch in ids ==> ch.capacity == BUFFER && (ch.open <==> ch in subscribers))
      && (forall a, b :: a in ids && b in ids && a != b ==> ids[a] != ids[b])
    }

    /** `ch` is the hub's channel of that name. */
    ghost predicate Mirrors(sub: Sub, ch: Channel)
      reads this, ch
    {
      sub.buffer == ch.buffer && (sub.left.None? <==> ch in subscribers)
    }

    ghost predicate Valid()
      reads this, eventChan, eventRepo, ids.Keys
    {
      Holding(None)
    }

    /** The objects are in the hub's state, with that event between its insert and its fan-out. */
    ghost predicate Holding(inHand: Option<Event>)
      reads this, eventChan, eventRepo, ids.Keys
    {
      && Wired() && WellFormed(base)
      && Hub().queue == eventChan.buffer && Hub().log == eventRepo.log && Hub().inHand == inHand
      && (forall c :: c in Hub().subs ==> c < |steps|)
      && (forall ch :: ch in ids ==> ids[ch] in Hub().subs && Mirrors(Hub().subs[ids[ch]], ch))
    }

    method Subscribe() returns (ch: Channel)
      requires Valid()
      modifies this
      ensures Valid() && fresh(ch) && ch.buffer == [] && subscribers == old(subscribers) + {ch}
      ensures steps == old(steps) + [Step.Subscribe(|old(steps)|)] && ids == old(ids)[ch := |old(steps)|]
    {
      ghost var h, id := Hub(), |steps|;
      ch := new Channel(BUFFER);
      subscribers := subscribers + {ch};
      AfterStep(base, steps, Step.Subscribe(id));
      ids := ids[ch := id];
      steps := steps + [Step.Subscribe(id)];
      assert Hub() == h.(subs := h.subs[id := Sub([], [], |h.processed|, None, 0)]);
      forall other | other in ids
        ensures ids[other] in Hub().subs && Mirrors(Hub().subs[ids[other]], other)
      {
        assert other != ch ==> ids[other] in h.subs && ids[other] != id;
      }
    }

    /** A handler unsubscribes the channel it subscribed, once. */
    method Unsubscribe(ch: Channel)
      requires Valid() && ch in subscribers
      modifies this, ch`open
      ensures Valid() && !ch.open && subscribers == old(subscribers) - {ch}
      ensures ids == old(ids) && steps == old(steps) + [Step.Unsubscribe(ids[ch])]
    {
      subscribers := subscribers - {ch};
      ch.Close();
      AfterStep(base, steps, Step.Unsubscribe(ids[ch]));
      steps := steps + [Step.Unsubscribe(ids[ch])];
    }

    /** A subscriber reads from its channel, which it may also do after unsubscribing. */
    method Receive(ch: Channel) returns (e: Event)
      requires Valid() && ch in ids && ch.buffer != []
      modifies this, ch`buffer
      ensures Valid() && e == old(ch.buffer)[0] && ch.buffer == old(ch.buffer)[1..]
      ensures ids == old(ids) && steps == old(steps) + [Step.Receive(ids[ch])] && subscribers == old(subscribers)
    {
      e := ch.Receive();
      AfterStep(base, steps, Step.Receive(ids[ch]));
      steps := steps + [Step.Receive(ids[ch])];
    }

    /** The event already carries its time; with retention off nothing is published. */
    method Publish(event: Event) returns (accepted: bool)
      requires Valid()
      modifies this, eventChan
      ensures Valid() && ids == old(ids) && subscribers == old(subscribers)
      ensures eventChan.buffer == if retentionDays == 0 then old(eventChan.buffer)
                                  else Offer(old(eventChan.buffer), QUEUE, Published(event))
      ensures accepted == (retentionDays != 0 && |old(eventChan.buffer)| < QUEUE)
      ensures steps == if retentionDays == 0 then old(steps) else old(steps) + [Step.Publish(event)]
    {
      if retentionDays == 0 {
        return false;
      }
      var source := event.source;
      if source == "" {
        source := "System";
      }
      accepted := eventChan.TrySend(event.(id := 0, source := source));
      AfterStep(base, steps, Step.Publish(event));
      steps := steps + [Step.Publish(event)];
    }

    /** One turn of the processor: take, store, fan out in whatever order the set is walked. */
    method ProcessNext(how: Insert) returns (e: Event)
      requires Valid() && eventChan.buffer != []
      modifies this, eventChan, eventRepo, subscribers
      ensures Valid() && ids == old(ids) && subscribers == old(subscribers)
      ensures eventChan.buffer == old(eventChan.buffer)[1..]
      ensures (eventRepo.log, e) == AfterInsert(old(eventRepo.log), old(eventChan.buffer)[0], how)
      ensures forall ch :: ch in subscribers ==> ch.buffer == Offer(old(ch.buffer), BUFFER, e)
      ensures steps == old(steps) + [Step.Take(how)] + [Step.Broadcast]
    {
      e := TakeNext(how);
      FanOut(e);
    }

    /** The processor receives the oldest event and stores it. */
    method TakeNext(how: Insert) returns (e: Event)
      requires Valid() && eventChan.buffer != []
      modifies this, eventChan, eventRepo
      ensures Holding(Some(e)) && ids == old(ids) && subscribers == old(subscribers)
      ensures eventChan.buffer == old(eventChan.buffer)[1..]
      ensures (eventRepo.log, e) == AfterInsert(old(eventRepo.log), old(eventChan.buffer)[0], how)
      ensures steps == old(steps) + [Step.Take(how)]
    {
      var event := eventChan.Receive();
      var ok;
      ok, e := eventRepo.Insert(event, how == Failed, how == Stored);
      AfterStep(base, steps, Step.Take(how));
      steps := steps + [Step.Take(how)];
    }

    /** It then offers the event to every subscriber. */
    method FanOut(e: Event)
      requires Holding(Some(e))
      modifies this, subscribers
      ensures Valid() && ids == old(ids) && subscribers == old(subscribers)
      ensures forall ch :: ch in subscribers ==> ch.buffer == Offer(old(ch.buffer), BUFFER, e)
      ensures steps == old(steps) + [Step.Broadcast]
    {
      ghost var h := Hub();
      OfferAll(e);
      AfterStep(base, steps, Step.Broadcast);
      steps := steps + [Step.Broadcast];
      forall ch | ch in ids
        ensures ids[ch] in Hub().subs && Mirrors(Hub().subs[ids[ch]], ch)
      {
        assert Hub().subs[ids[ch]] == Fanned(h.subs[ids[ch]], e);
      }
    }

    /** The loop over the subscribers. */
    method OfferAll(e: Event)
      requires Wired()
      modifies subscribers
      ensures Wired()
      ensures forall ch :: ch in ids ==>
                ch.buffer == if ch in subscribers then Offer(old(ch.buffer), BUFFER, e) else old(ch.buffer)
    {
      var todo := subscribers;
      while todo != {}
        invariant todo <= subscribers && Wired()
        invariant forall ch :: ch in ids ==>
          ch.buffer == if ch in subscribers - todo then Offer(old(ch.buffer), BUFFER, e) else old(ch.buffer)
        decreases todo
      {
        var ch :| ch in todo;
        var sent := ch.TrySend(e);
        todo := todo - {ch};
      }
    }
  }

  /**
   * What is proved of every interleaving of the hub holds of the objects: nothing published is lost
   * between queue and table, and every channel's stream is its subscription's share, in order.
   */
  lemma ServiceIsAHub(s: Service)
    requires s.Valid()
    ensures Conserved(s.base, s.Hub()) && s.Hub().queue == s.eventChan.buffer && s.Hub().log == s.eventRepo.log
    ensures forall ch :: ch in s.ids ==>
              && s.ids[ch] in s.Hub().subs && Faithful(s.Hub(), s.Hub().subs[s.ids[ch]])
              && Rising(s.Hub().subs[s.ids[ch]].Stream())
              && s.Hub().subs[s.ids[ch]].buffer == ch.buffer && |ch.buffer| <= BUFFER
  {
    EventsAreConserved(s.base, s.steps);
    SubscribersSeeTheirShare(s.base, s.steps);
    forall ch | ch in s.ids
      ensures Rising(s.Hub().subs[s.ids[ch]].Stream())
    {
      SubscribersSeeRisingIds(s.base, s.steps, s.ids[ch]);
    }
  }
}
