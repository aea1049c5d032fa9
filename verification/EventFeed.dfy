/**
 * The live feed's paging: fetch the newest page, then keep asking for what is older than the last
 * id seen. While newer events arrive between pages, the pages rebuild the filtered log exactly.
 */
module EventFeed {
  import opened Records
  import opened Sequences
  import opened EventLog

  const PAGE: nat := 50

  datatype Feed = Feed(events: seq<Event>, oldestEventId: Option<int>, hasMoreEvents: bool)

  /** `setFilter` clears the feed. */
  const CLEARED := Feed([], None, true)

  /** The UI's "all", like any other word the handler does not know, means no filter. */
  function ActionOf(filter: string): string {
    if filter == "allow" || filter == "block" then filter else ""
  }

  /** `fetchInitialEvents` when the request succeeds. */
  function Fetched(feed: Feed, log: Log, filter: string): Feed {
    var data := Page(log.rows, 0, PAGE, ActionOf(filter));
    Feed(data,
         if data == [] then None else Some(data[|data| - 1].id),
         if |data| < PAGE then false else feed.hasMoreEvents)
  }

  /** `loadMoreEvents` when the request succeeds. */
  function Loaded(feed: Feed, log: Log, filter: string): Feed {
    if !feed.hasMoreEvents || feed.oldestEventId.None? then feed
    else
      var data := Page(log.rows, feed.oldestEventId.value, PAGE, ActionOf(filter));
      if data == [] then feed.(hasMoreEvents := false)
      else Feed(feed.events + data, Some(data[|data| - 1].id), |data| >= PAGE)
  }

  class LiveTrafficFeed {
    var events: seq<Event>
    var oldestEventId: Option<int>
    var hasMoreEvents: bool
    const filter: string

    constructor (filter: string)
      ensures Model() == CLEARED && this.filter == filter
    {
      events, oldestEventId, hasMoreEvents := [], None, true;
      this.filter := filter;
    }

    function Model(): Feed
      reads this
    {
      Feed(events, oldestEventId, hasMoreEvents)
    }

    /** A failed request is logged and changes nothing. */
    method FetchInitialEvents(repo: EventRepository, fault: bool)
      modifies this
      ensures Model() == if fault then old(Model()) else Fetched(old(Model()), repo.log, filter)
    {
      var found := repo.GetEvents(0, PAGE, ActionOf(filter), fault);
      if found.None? {
        return;
      }
      var data := found.value;
      events := data;
      if |data| < 50 {
        hasMoreEvents := false;
      }
      if |data| > 0 {
        oldestEventId := Some(data[|data| - 1].id);
      } else {
        oldestEventId := None;
      }
    }

    method LoadMoreEvents(repo: EventRepository, fault: bool)
      modifies this
      ensures Model() == if fault then old(Model()) else Loaded(old(Model()), repo.log, filter)
    {
      if !hasMoreEvents || oldestEventId.None? {
        return;
      }
      var found := repo.GetEvents(oldestEventId.value, PAGE, ActionOf(filter), fault);
      if found.None? {
        return;
      }
      var data := found.value;
      if |data| == 0 {
        hasMoreEvents := false;
      } else {
        events := events + data;
        oldestEventId := Some(data[|data| - 1].id);
        if |data| < 50 {
          hasMoreEvents := false;
        }
      }
    }
  }

  // ---------- paging over a growing log ----------

  /** `later` is `log` after some inserts. */
  ghost predicate Grows(log: Log, later: Log) {
    && WellFormed(log) && WellFormed(later) && log.lastId <= later.lastId
    && |log.rows| <= |later.rows| && later.rows[..|log.rows|] == log.rows
    && forall i :: |log.rows| <= i < |later.rows| ==> later.rows[i].id > log.lastId
  }

  /** The first page from `log`, then one more page from each later state of the log. */
  function Browse(log: Log, later: seq<Log>, filter: string): Feed {
    if later == [] then Fetched(CLEARED, log, filter)
    else Loaded(Browse(log, later[..|later| - 1], filter), later[|later| - 1], filter)
  }

  /** The full filtered log, newest first, as it stood at the first page. */
  function Whole(log: Log, filter: string): seq<Event> {
    Newest(log.rows, 0, ActionOf(filter))
  }

  ghost predicate Paged(feed: Feed, whole: seq<Event>) {
    && |feed.events| <= |whole| && feed.events == whole[..|feed.events|]
    && (if feed.events == [] then feed.oldestEventId == None
        else feed.oldestEventId == Some(feed.events[|feed.events| - 1].id))
    && (!feed.hasMoreEvents ==> feed.events == whole)
    && (feed.hasMoreEvents ==> feed.events != [])
  }

  lemma {:induction false} ReverseKeep(p: Event -> bool, s: seq<Event>)
    ensures Reverse(Keep(p, s)) == Keep(p, Reverse(s))
  {
    if s == [] {
    } else {
      assert s == [s[0]] + s[1..];
      ReverseKeep(p, s[1..]);
      KeepAppend(p, [s[0]], s[1..]);
      assert Keep(p, [s[0]]) == if p(s[0]) then [s[0]] else [];
      ReverseAppend([s[0]], s[1..]);
      ReverseAppend(Keep(p, [s[0]]), Keep(p, s[1..]));
      KeepAppend(p, Reverse(s[1..]), Reverse([s[0]]));
      assert Reverse([s[0]]) == [s[0]];
      assert Reverse(Keep(p, [s[0]])) == Keep(p, [s[0]]);
    }
  }

  lemma {:induction false} KeepNone(p: Event -> bool, s: seq<Event>)
    requires forall e :: e in s ==> !p(e)
    ensures Keep(p, s) == []
  {
    if s == [] {
    } else {
      KeepNone(p, s[1..]);
    }
  }

  lemma {:induction false} KeepSuffix(p: Event -> bool, s: seq<Event>, k: nat)
    requires k <= |s|
    requires forall i :: 0 <= i < k ==> !p(s[i])
    requires forall i :: k <= i < |s| ==> p(s[i])
    ensures Keep(p, s) == s[k..]
  {
    if s == [] {
    } else if k == 0 {
      KeepAll(p, s);
    } else {
      KeepSuffix(p, s[1..], k - 1);
    }
  }

  /** In a descending list, what has a smaller id than the last one seen is exactly what follows it. */
  lemma OlderThanSeen(whole: seq<Event>, seen: nat, action: string)
    requires Descending(whole) && 0 < seen <= |whole| && whole[seen - 1].id > 0
    requires forall e :: e in whole ==> Matches(0, action)(e)
    ensures Keep(Matches(whole[seen - 1].id, action), whole) == whole[seen..]
  {
    assert forall i :: 0 <= i < |whole| ==> whole[i] in whole;
    KeepSuffix(Matches(whole[seen - 1].id, action), whole, seen);
  }

  lemma WholeIsDescending(log: Log, filter: string)
    requires WellFormed(log)
    ensures Descending(Whole(log, filter))
    ensures forall e :: e in Whole(log, filter) ==> e in log.rows && e.id > 0 && Matches(0, ActionOf(filter))(e)
  {
    var p := Matches(0, ActionOf(filter));
    KeepMembers(p, log.rows);
    KeepAscending(p, log.rows);
    ReverseMembers(Keep(p, log.rows));
  }

  /** Events that arrived after the first page are newer than anything it showed. */
  lemma ArrivalsDoNotShow(log: Log, later: Log, last: int, action: string)
    requires Grows(log, later) && 0 < last <= log.lastId
    ensures Keep(Matches(last, action), later.rows) == Keep(Matches(last, action), log.rows)
  {
    var arrived := later.rows[|log.rows|..];
    assert later.rows == log.rows + arrived;
    assert forall i :: 0 <= i < |arrived| ==> arrived[i] == later.rows[|log.rows| + i];
    KeepAppend(Matches(last, action), log.rows, arrived);
    NewerNeverMatch(arrived, last, action);
  }

  lemma NewerNeverMatch(arrived: seq<Event>, last: int, action: string)
    requires last > 0 && forall i :: 0 <= i < |arrived| ==> arrived[i].id > last
    ensures Keep(Matches(last, action), arrived) == []
  {
    KeepNone(Matches(last, action), arrived);
  }

  /** What is older than `last` in the log is the older part of the filtered log. */
  lemma OlderPart(log: Log, last: int, filter: string)
    ensures Newest(log.rows, last, ActionOf(filter)) == Keep(Matches(last, ActionOf(filter)), Whole(log, filter))
  {
    var action := ActionOf(filter);
    KeepKeep(Matches(last, action), Matches(0, action), log.rows);
    ReverseKeep(Matches(last, action), Keep(Matches(0, action), log.rows));
  }

  /** Asking a later log for what is older than the last id seen continues the list exactly. */
  lemma NextPageContinues(log: Log, later: Log, filter: string, seen: nat)
    requires Grows(log, later) && 0 < seen <= |Whole(log, filter)|
    ensures Newest(later.rows, Whole(log, filter)[seen - 1].id, ActionOf(filter)) == Whole(log, filter)[seen..]
  {
    var whole := Whole(log, filter);
    WholeIsDescending(log, filter);
    assert whole[seen - 1] in whole;
    var last := whole[seen - 1].id;
    ArrivalsDoNotShow(log, later, last, ActionOf(filter));
    OlderPart(log, last, filter);
    OlderThanSeen(whole, seen, ActionOf(filter));
  }

  lemma FetchedIsPaged(log: Log, filter: string)
    ensures var feed := Fetched(CLEARED, log, filter);
            && Paged(feed, Whole(log, filter))
            && (feed.hasMoreEvents ==> |feed.events| == PAGE)
  {
  }

  lemma LoadedIsPaged(feed: Feed, log: Log, later: Log, filter: string)
    requires Grows(log, later) && Paged(feed, Whole(log, filter))
    ensures var next := Loaded(feed, later, filter);
            && Paged(next, Whole(log, filter))
            && (next.hasMoreEvents ==> feed.hasMoreEvents && |next.events| == |feed.events| + PAGE)
  {
    if feed.hasMoreEvents {
      var whole, seen := Whole(log, filter), |feed.events|;
      NextPageContinues(log, later, filter, seen);
      assert Page(later.rows, feed.oldestEventId.value, PAGE, ActionOf(filter)) == First(whole[seen..], PAGE);
      Appended(feed, whole);
    }
  }

  /** The feed after a page that continues the list. */
  lemma Appended(feed: Feed, whole: seq<Event>)
    requires Paged(feed, whole) && feed.hasMoreEvents
    ensures var data := First(whole[|feed.events|..], PAGE);
            var next := if data == [] then feed.(hasMoreEvents := false)
                        else Feed(feed.events + data, Some(data[|data| - 1].id), |data| >= PAGE);
            && Paged(next, whole)
            && (next.hasMoreEvents ==> |next.events| == |feed.events| + PAGE)
  {
    TakeFrom(whole, |feed.events|);
  }

  lemma TakeFrom(whole: seq<Event>, seen: nat)
    requires seen <= |whole|
    ensures var data := First(whole[seen..], PAGE);
            && seen + |data| <= |whole| && |data| <= PAGE
            && whole[..seen] + data == whole[..seen + |data|]
            && (data == [] ==> whole[..seen] == whole)
            && (|data| < PAGE ==> whole[..seen] + data == whole)
            && (data != [] ==> (whole[..seen] + data)[seen + |data| - 1] == data[|data| - 1])
  {
  }

  /** The full filtered log, by the fields of its events: "allow" and "block" filter, nothing else does. */
  lemma WholeIsExact(log: Log, filter: string)
    requires WellFormed(log)
    ensures Descending(Whole(log, filter))
    ensures forall e :: e in Whole(log, filter) <==>
              e in log.rows && (filter == "allow" || filter == "block" ==> e.action == filter)
  {
    var p := Matches(0, ActionOf(filter));
    WholeIsDescending(log, filter);
    KeepMembers(p, log.rows);
    ReverseMembers(Keep(p, log.rows));
  }

  /**
   * Keyset paging is complete: whatever arrives between the pages, what the feed shows is always the
   * beginning of the filtered log as it stood at the first page, in descending id order with no gap
   * and no repeat; it is all of it once the feed says there is no more; and the feed says so after at
   * most one page per fifty events.
   */
  lemma {:induction false} PagingIsComplete(log: Log, later: seq<Log>, filter: string)
    requires WellFormed(log) && forall i :: 0 <= i < |later| ==> Grows(log, later[i])
    ensures var feed := Browse(log, later, filter);
            var whole := Whole(log, filter);
            && Descending(whole)
            && (forall e :: e in whole <==> e in log.rows && (filter == "allow" || filter == "block" ==> e.action == filter))
            && feed.events <= whole
            && (!feed.hasMoreEvents ==> feed.events == whole)
            && (feed.hasMoreEvents ==> |feed.events| == 50 * (|later| + 1) <= |whole|)
            && (|later| >= |whole| / 50 ==> !feed.hasMoreEvents)
            && Paged(feed, whole)
  {
    WholeIsExact(log, filter);
    FetchedIsPaged(log, filter);
    if later == [] {
    } else {
      var before := later[..|later| - 1];
      PagingIsComplete(log, before, filter);
      LoadedIsPaged(Browse(log, before, filter), log, later[|later| - 1], filter);
    }
  }
}
