/** The `events` table: an append-only log in id order, its keyset query and its retention delete. */
module EventLog {
  import opened Records
  import opened Sequences

  datatype Event = Event(
    id: int,
    ip: IP,
    targetHost: string,
    targetPath: string,
    action: string,
    source: string,
    timestamp: Instant)

  /** `lastId` is what AUTOINCREMENT remembers: no id is given twice, even after deletes. */
  datatype Log = Log(rows: seq<Event>, lastId: nat)

  ghost predicate Ascending(rows: seq<Event>) {
    forall i, j :: 0 <= i < j < |rows| ==> rows[i].id < rows[j].id
  }

  ghost predicate Descending(rows: seq<Event>) {
    forall i, j :: 0 <= i < j < |rows| ==> rows[j].id < rows[i].id
  }

  ghost predicate WellFormed(log: Log) {
    Ascending(log.rows) && forall e :: e in log.rows ==> 0 < e.id <= log.lastId
  }

  function Inserted(log: Log, e: Event): Log {
    Log(log.rows + [e.(id := log.lastId + 1)], log.lastId + 1)
  }

  /** The query's WHERE clause; a non-positive id and an empty action do not filter. */
  function Matches(beforeId: int, action: string): Event -> bool {
    (e: Event) => (beforeId > 0 ==> e.id < beforeId) && (action != "" ==> e.action == action)
  }

  function Younger(cutoff: Instant): Event -> bool {
    (e: Event) => e.timestamp > cutoff
  }

  function Reverse(s: seq<Event>): (r: seq<Event>)
    ensures |r| == |s|
    ensures forall i :: 0 <= i < |s| ==> r[i] == s[|s| - 1 - i]
  {
    seq(|s|, i requires 0 <= i < |s| => s[|s| - 1 - i])
  }

  function First(s: seq<Event>, n: nat): seq<Event> {
    if n < |s| then s[..n] else s
  }

  /** All matching rows, newest first. */
  function Newest(rows: seq<Event>, beforeId: int, action: string): seq<Event> {
    Reverse(Keep(Matches(beforeId, action), rows))
  }

  /** `GetEvents`: ORDER BY id DESC LIMIT. */
  function Page(rows: seq<Event>, beforeId: int, limit: nat, action: string): seq<Event> {
    First(Newest(rows, beforeId, action), limit)
  }

  lemma {:induction false} KeepAscending(p: Event -> bool, rows: seq<Event>)
    requires Ascending(rows)
    ensures Ascending(Keep(p, rows))
  {
    if rows == [] {
    } else {
      KeepAscending(p, rows[1..]);
      KeepMembers(p, rows[1..]);
      AscendingCons(rows[0], Keep(p, rows[1..]));
    }
  }

  lemma AscendingCons(e: Event, rows: seq<Event>)
    requires Ascending(rows) && forall x :: x in rows ==> e.id < x.id
    ensures Ascending([e] + rows)
  {
  }

  lemma ReverseMembers(s: seq<Event>)
    ensures forall e :: e in Reverse(s) <==> e in s
  {
    forall i | 0 <= i < |s|
      ensures s[i] in Reverse(s)
    {
      assert Reverse(s)[|s| - 1 - i] == s[i];
    }
  }

  lemma PageOfMatches(rows: seq<Event>, beforeId: int, limit: nat, action: string)
    requires Ascending(rows)
    ensures var page, p := Page(rows, beforeId, limit, action), Matches(beforeId, action);
            && |page| <= limit && Descending(page)
            && (forall e :: e in page ==> e in rows && p(e))
            && (forall e, x :: e in rows && p(e) && e !in page && x in page ==> e.id < x.id)
            && (|page| < limit ==> forall e :: e in rows && p(e) ==> e in page)
  {
    var p := Matches(beforeId, action);
    var all := Newest(rows, beforeId, action);
    KeepAscending(p, rows);
    KeepMembers(p, rows);
    ReverseMembers(Keep(p, rows));
    assert all == First(all, limit) + all[|First(all, limit)|..];
    assert Descending(all);
  }

  /**
   * What a page is, without saying how it is found: rows of that action with a smaller id, where given,
   * in descending id order, at most `limit`; every such row it leaves out is older than all of it; and a
   * short page leaves none out.
   */
  lemma PageIsNewest(rows: seq<Event>, beforeId: int, limit: nat, action: string)
    requires Ascending(rows)
    ensures var page := Page(rows, beforeId, limit, action);
            && |page| <= limit && Descending(page)
            && (forall e :: e in page ==> e in rows && (beforeId <= 0 || e.id < beforeId) && (action == "" || e.action == action))
            && (forall e :: e in rows && (beforeId <= 0 || e.id < beforeId) && (action == "" || e.action == action) && e !in page ==>
                  |page| == limit && forall x :: x in page ==> e.id < x.id)
  {
    var page := Page(rows, beforeId, limit, action);
    PageOfMatches(rows, beforeId, limit, action);
    forall e | e in rows && (beforeId <= 0 || e.id < beforeId) && (action == "" || e.action == action) && e !in page
      ensures |page| == limit && forall x :: x in page ==> e.id < x.id
    {
      assert Matches(beforeId, action)(e);
    }
  }

  /** Retention keeps exactly the rows with a later timestamp, in order, so their ids still ascend. */
  lemma RetentionIsExact(log: Log, cutoff: Instant)
    requires WellFormed(log)
    ensures var rows := Keep(Younger(cutoff), log.rows);
            && Subseq(rows, log.rows)
            && (forall e :: e in rows <==> e in log.rows && cutoff < e.timestamp)
            && WellFormed(Log(rows, log.lastId))
  {
    KeepIsSubseq(Younger(cutoff), log.rows);
    KeepMembers(Younger(cutoff), log.rows);
    KeepAscending(Younger(cutoff), log.rows);
  }

  /** An insert appends the event with all its fields under an id that no row ever had. */
  lemma InsertIsExact(log: Log, e: Event)
    requires WellFormed(log)
    ensures var after := Inserted(log, e);
            && WellFormed(after) && |after.rows| == |log.rows| + 1 && after.rows[..|log.rows|] == log.rows
            && var row := after.rows[|log.rows|];
               && row == Event(row.id, e.ip, e.targetHost, e.targetPath, e.action, e.source, e.timestamp)
               && row.id == after.lastId && row.id > log.lastId && forall x :: x in log.rows ==> x.id < row.id
  {
  }

  class EventRepository {
    var log: Log

    constructor ()
      ensures log == Log([], 0)
    {
      log := Log([], 0);
    }

    /** On success the row gets the next id, and so does the event if the driver tells it. */
    method Insert(e: Event, fault: bool, idKnown: bool) returns (ok: bool, saved: Event)
      modifies this
      ensures ok == !fault
      ensures fault ==> log == old(log) && saved == e
      ensures !fault ==> log == Inserted(old(log), e)
      ensures !fault ==> saved == if idKnown then e.(id := log.lastId) else e
    {
      if fault {
        return false, e;
      }
      log := Log(log.rows + [e.(id := log.lastId + 1)], log.lastId + 1);
      ok := true;
      saved := e;
      if idKnown {
        saved := e.(id := log.lastId);
      }
    }

    /** Walks the rows from the newest down and stops at the limit; None stands for a failed query or scan. */
    method GetEvents(beforeId: int, limit: nat, action: string, fault: bool) returns (found: Option<seq<Event>>)
      ensures found == if fault then None else Some(Page(log.rows, beforeId, limit, action))
    {
      if fault {
        return None;
      }
      var rows := log.rows;
      var i := |rows|;
      var events := [];
      assert rows[..i] == rows;
      while i > 0 && |events| < limit
        invariant 0 <= i <= |rows|
        invariant |events| <= limit
        invariant Newest(rows, beforeId, action) == events + Newest(rows[..i], beforeId, action)
      {
        i := i - 1;
        var e := rows[i];
        OneMore(rows, i, events, beforeId, action);
        if (beforeId <= 0 || e.id < beforeId) && (action == "" || e.action == action) {
          events := events + [e];
        }
      }
      assert rows[..0] == [];
      FirstOf(events, Newest(rows[..i], beforeId, action), limit);
      found := Some(events);
    }

    method DeleteOlderThan(cutoff: Instant, fault: bool) returns (affected: Option<nat>)
      modifies this
      ensures fault ==> affected == None && log == old(log)
      ensures !fault ==> log == Log(Keep(Younger(cutoff), old(log).rows), old(log).lastId)
      ensures !fault ==> affected == Some(|old(log).rows| - |log.rows|)
    {
      if fault {
        return None;
      }
      var kept := Keep(Younger(cutoff), log.rows);
      KeepLength(Younger(cutoff), log.rows);
      affected := Some(|log.rows| - |kept|);
      log := log.(rows := kept);
    }
  }

  /** A row with a higher id comes first. */
  lemma NewestSplit(rows: seq<Event>, e: Event, beforeId: int, action: string)
    ensures Newest(rows + [e], beforeId, action)
         == (if Matches(beforeId, action)(e) then [e] else []) + Newest(rows, beforeId, action)
  {
    var p := Matches(beforeId, action);
    KeepAppend(p, rows, [e]);
    assert Keep(p, [e]) == if p(e) then [e] else [];
    ReverseAppend(Keep(p, rows), Keep(p, [e]));
  }

  lemma OneMore(rows: seq<Event>, i: nat, events: seq<Event>, beforeId: int, action: string)
    requires i < |rows|
    ensures var rest := Newest(rows[..i], beforeId, action);
            events + Newest(rows[..i + 1], beforeId, action)
            == (if Matches(beforeId, action)(rows[i]) then events + [rows[i]] else events) + rest
  {
    assert rows[..i + 1] == rows[..i] + [rows[i]];
    NewestSplit(rows[..i], rows[i], beforeId, action);
  }

  lemma FirstOf(front: seq<Event>, rest: seq<Event>, limit: nat)
    requires |front| <= limit && (rest != [] ==> |front| == limit)
    ensures First(front + rest, limit) == front
  {
  }

  lemma ReverseAppend(s: seq<Event>, t: seq<Event>)
    ensures Reverse(s + t) == Reverse(t) + Reverse(s)
  {
  }
}
