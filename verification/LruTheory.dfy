/**
 * Runs of the L1 cache from empty: the size bound, the inclusion of smaller caches in larger
 * ones, and the agreement of list order with last use.
 */
module LruTheory {
  import opened Records
  import opened Sequences
  import opened Recency

  datatype Op =
    | Get(ip: IP, now: Instant)
    | Set(ip: IP, record: IPRecord, now: Instant)
    | Remove(ip: IP)
    | RemoveExpired(cutoff: Instant)

  function Apply(s: seq<Entry>, maxSize: int, op: Op): seq<Entry> {
    match op
    case Get(ip, now) => Touch(s, ip, now)
    case Set(ip, record, now) => Put(s, maxSize, ip, record, now)
    case Remove(ip) => Without(s, ip)
    case RemoveExpired(cutoff) => Sweep(s, cutoff)
  }

  /** The cache after a whole run from empty. */
  function After(maxSize: int, ops: seq<Op>): seq<Entry> {
    if ops == [] then [] else Apply(After(maxSize, ops[..|ops| - 1]), maxSize, ops[|ops| - 1])
  }

  /** The room a cache really has: with `maxSize <= 0` one entry still fits. */
  function Room(maxSize: int): nat {
    if maxSize < 1 then 1 else maxSize
  }

  lemma ApplyKeepsShape(s: seq<Entry>, maxSize: int, op: Op)
    requires Distinct(s) && |s| <= Room(maxSize)
    ensures Distinct(Apply(s, maxSize, op)) && |Apply(s, maxSize, op)| <= Room(maxSize)
  {
    match op
    case Get(ip, now) => FindAfterTouch(s, ip, now, ip);
    case Set(ip, record, now) =>
      FindAfterPut(s, maxSize, ip, record, now, ip);
      KeepWithout(s, ip);
    case Remove(ip) =>
      FindAfterWithout(s, ip, ip);
      KeepLength(NotAt(ip), s);
    case RemoveExpired(cutoff) =>
      FindKept(s, Unexpired(cutoff), "");
      KeepLength(Unexpired(cutoff), s);
  }

  /** Every reachable cache holds one entry per address and never more than it has room for. */
  lemma {:induction false} ReachableShape(maxSize: int, ops: seq<Op>)
    ensures Distinct(After(maxSize, ops)) && |After(maxSize, ops)| <= Room(maxSize)
  {
    if ops == [] {
    } else {
      ReachableShape(maxSize, ops[..|ops| - 1]);
      ApplyKeepsShape(After(maxSize, ops[..|ops| - 1]), maxSize, ops[|ops| - 1]);
    }
  }

  // ---------- LRU inclusion ----------

  /** The small list embeds in the large one, and the small cache has no more free room. */
  ghost predicate Included(small: seq<Entry>, n: int, large: seq<Entry>, m: int) {
    && Distinct(small) && |small| <= Room(n)
    && Distinct(large) && |large| <= Room(m)
    && Subseq(small, large)
    && Room(n) - |small| <= Room(m) - |large|
  }

  lemma IncludedFind(small: seq<Entry>, large: seq<Entry>, ip: IP)
    requires Distinct(large) && Subseq(small, large)
    ensures Slot(small, ip).Some? ==> Slot(large, ip) == Slot(small, ip)
  {
    SubseqMembers(small, large);
    FindMembers(small, ip);
    if Slot(small, ip).Some? {
      var e := Slot(small, ip).value;
      var k :| 0 <= k < |large| && large[k] == e;
      FindAt(large, k);
    }
  }

  lemma SubseqCons(e: Entry, s: seq<Entry>, t: seq<Entry>)
    requires Subseq(s, t)
    ensures Subseq([e] + s, [e] + t)
  {
    assert ([e] + s)[1..] == s && ([e] + t)[1..] == t;
  }

  lemma EvictIncluded(small: seq<Entry>, n: int, large: seq<Entry>, m: int)
    requires Included(small, n, large, m)
    ensures Subseq(Evict(small, n), Evict(large, m))
    ensures Room(n) - |Evict(small, n)| <= Room(m) - |Evict(large, m)|
  {
    SubseqMembers(small, large);
    if small != [] && |small| >= n {
      SubseqDropLast(small, large);
      SubseqDropLastLeft(small);
      SubseqTrans(Evict(small, n), small, large);
    }
  }

  lemma SubseqDropLastLeft(s: seq<Entry>)
    requires s != []
    ensures Subseq(s[..|s| - 1], s)
  {
    var front, last := s[..|s| - 1], s[|s| - 1];
    SubseqRefl(front);
    SubseqAppend(front, front, last);
    assert front + [last] == s;
  }

  lemma WithoutIncluded(small: seq<Entry>, n: int, large: seq<Entry>, m: int, ip: IP)
    requires Included(small, n, large, m)
    ensures Subseq(Without(small, ip), Without(large, ip))
    ensures Find(small, ip).None? ==> Subseq(small, Without(large, ip))
  {
    KeepMonotone(NotAt(ip), small, large);
    KeepWithout(small, ip);
  }

  lemma TouchIncluded(small: seq<Entry>, n: int, large: seq<Entry>, m: int, ip: IP, now: Instant)
    requires Included(small, n, large, m)
    ensures Subseq(Touch(small, ip, now), Touch(large, ip, now))
  {
    IncludedFind(small, large, ip);
    WithoutIncluded(small, n, large, m, ip);
    if Find(large, ip).Some? {
      var e := Entry(ip, Find(large, ip).value, now);
      SubseqCons(e, Without(small, ip), Without(large, ip));
      if Find(small, ip).None? {
        SubseqExtend(small, Without(large, ip), [e]);
      }
    }
  }

  lemma PutIncluded(small: seq<Entry>, n: int, large: seq<Entry>, m: int, ip: IP, record: IPRecord, now: Instant)
    requires Included(small, n, large, m)
    ensures Included(Put(small, n, ip, record, now), n, Put(large, m, ip, record, now), m)
  {
    var e := Entry(ip, record, now);
    IncludedFind(small, large, ip);
    WithoutIncluded(small, n, large, m, ip);
    EvictIncluded(small, n, large, m);
    KeepWithout(small, ip);
    KeepWithout(large, ip);
    ApplyKeepsShape(small, n, Set(ip, record, now));
    ApplyKeepsShape(large, m, Set(ip, record, now));
    var s, t := Put(small, n, ip, record, now)[1..], Put(large, m, ip, record, now)[1..];
    if Find(small, ip).None? && Find(large, ip).Some? && small != [] {
      SubseqDropLastLeft(small);
      if |small| >= n {
        SubseqTrans(s, small, t);
      }
    }
    SubseqCons(e, s, t);
    assert Put(small, n, ip, record, now) == [e] + s && Put(large, m, ip, record, now) == [e] + t;
  }

  /** One common operation keeps the small cache inside the large one. */
  lemma ApplyIncluded(small: seq<Entry>, n: int, large: seq<Entry>, m: int, op: Op)
    requires Included(small, n, large, m)
    ensures Included(Apply(small, n, op), n, Apply(large, m, op), m)
  {
    ApplyKeepsShape(small, n, op);
    ApplyKeepsShape(large, m, op);
    match op
    case Get(ip, now) =>
      TouchIncluded(small, n, large, m, ip, now);
      FindAfterTouch(small, ip, now, ip);
      FindAfterTouch(large, ip, now, ip);
    case Set(ip, record, now) => PutIncluded(small, n, large, m, ip, record, now);
    case Remove(ip) => KeepMonotone(NotAt(ip), small, large);
    case RemoveExpired(cutoff) => KeepMonotone(Unexpired(cutoff), small, large);
  }

  /**
   * LRU inclusion: whatever the two sizes (even non-positive ones), after any common run from
   * empty the smaller cache's list is a subsequence of the larger one's, with equal records and
   * stamps, so every hit in the small cache is the same hit in the large one.
   */
  lemma {:induction false} LruInclusion(n: int, m: int, ops: seq<Op>)
    requires n <= m
    ensures Included(After(n, ops), n, After(m, ops), m)
    ensures forall ip :: Slot(After(n, ops), ip).Some? ==> Slot(After(m, ops), ip) == Slot(After(n, ops), ip)
  {
    if ops == [] {
    } else {
      var before := ops[..|ops| - 1];
      LruInclusion(n, m, before);
      ApplyIncluded(After(n, before), n, After(m, before), m, ops[|ops| - 1]);
    }
    forall ip
      ensures Slot(After(n, ops), ip).Some? ==> Slot(After(m, ops), ip) == Slot(After(n, ops), ip)
    {
      IncludedFind(After(n, ops), After(m, ops), ip);
    }
  }

  // ---------- recency is time order ----------

  /** The instant a `Get` or `Set` reads from the cache's clock. */
  function Touched(op: Op): Option<Instant> {
    match op
    case Get(_, now) => Some(now)
    case Set(_, _, now) => Some(now)
    case _ => None
  }

  /** The clock does not go back during the run. */
  ghost predicate ClockForward(ops: seq<Op>) {
    forall i, j :: 0 <= i < j < |ops| && Touched(ops[i]).Some? && Touched(ops[j]).Some?
      ==> Touched(ops[i]).value <= Touched(ops[j]).value
  }

  /** When the run last looked up or stored `ip`, read off the run alone. */
  function LastTouch(ops: seq<Op>, ip: IP): Option<Instant> {
    if ops == [] then None
    else
      var op := ops[|ops| - 1];
      if Touched(op).Some? && op.ip == ip then Touched(op) else LastTouch(ops[..|ops| - 1], ip)
  }

  ghost predicate NewestFirst(s: seq<Entry>) {
    forall i, j :: 0 <= i < j < |s| ==> s[j].stamp <= s[i].stamp
  }

  ghost predicate Stamped(s: seq<Entry>, ops: seq<Op>) {
    forall e :: e in s ==> LastTouch(ops, e.ip) == Some(e.stamp)
  }

  lemma {:induction false} LastTouchIsPast(ops: seq<Op>, ip: IP, bound: Instant)
    requires forall i :: 0 <= i < |ops| && Touched(ops[i]).Some? ==> Touched(ops[i]).value <= bound
    ensures LastTouch(ops, ip).Some? ==> LastTouch(ops, ip).value <= bound
  {
    if ops == [] {
    } else {
      LastTouchIsPast(ops[..|ops| - 1], ip, bound);
    }
  }

  lemma {:induction false} KeepNewestFirst(p: Entry -> bool, s: seq<Entry>)
    requires NewestFirst(s)
    ensures NewestFirst(Keep(p, s))
  {
    if s == [] {
    } else {
      KeepNewestFirst(p, s[1..]);
      KeepMembers(p, s[1..]);
      NewestFirstCons(s[0], Keep(p, s[1..]));
    }
  }

  lemma NewestFirstCons(e: Entry, s: seq<Entry>)
    requires NewestFirst(s) && forall x :: x in s ==> x.stamp <= e.stamp
    ensures NewestFirst([e] + s)
  {
  }

  lemma LastTouchStep(before: seq<Op>, op: Op, ip: IP)
    ensures LastTouch(before + [op], ip) ==
            if Touched(op).Some? && op.ip == ip then Touched(op) else LastTouch(before, ip)
  {
    assert (before + [op])[..|before|] == before;
  }

  lemma StampsArePast(s: seq<Entry>, before: seq<Op>, op: Op)
    requires Stamped(s, before) && ClockForward(before + [op]) && Touched(op).Some?
    ensures forall e :: e in s ==> e.stamp <= Touched(op).value
  {
    assert forall i :: 0 <= i < |before| ==> before[i] == (before + [op])[i];
    assert (before + [op])[|before|] == op;
    forall e | e in s
      ensures e.stamp <= Touched(op).value
    {
      LastTouchIsPast(before, e.ip, Touched(op).value);
    }
  }

  /** Entries that survive an operation on another address keep their place and their stamp. */
  lemma SurvivorsKeepTimeOrder(s: seq<Entry>, before: seq<Op>, op: Op, rest: seq<Entry>)
    requires Stamped(s, before) && ClockForward(before + [op])
    requires forall e :: e in rest ==> e in s && (Touched(op).Some? ==> e.ip != op.ip)
    requires NewestFirst(rest)
    ensures Stamped(rest, before + [op])
    ensures Touched(op).Some? ==> forall e :: e in rest ==> e.stamp <= Touched(op).value
  {
    forall e | e in rest
      ensures LastTouch(before + [op], e.ip) == Some(e.stamp)
    {
      LastTouchStep(before, op, e.ip);
    }
    if Touched(op).Some? {
      StampsArePast(s, before, op);
    }
  }

  lemma FrontKeepsTimeOrder(front: Entry, rest: seq<Entry>, before: seq<Op>, op: Op)
    requires Touched(op) == Some(front.stamp) && op.ip == front.ip
    requires NewestFirst(rest) && Stamped(rest, before + [op])
    requires forall e :: e in rest ==> e.stamp <= front.stamp
    ensures NewestFirst([front] + rest) && Stamped([front] + rest, before + [op])
  {
    NewestFirstCons(front, rest);
    LastTouchStep(before, op, front.ip);
  }

  lemma PutFrontKeepsTimeOrder(s: seq<Entry>, rest: seq<Entry>, front: Entry, before: seq<Op>, op: Op)
    requires NewestFirst(rest) && Stamped(s, before) && ClockForward(before + [op])
    requires Touched(op) == Some(front.stamp) && op.ip == front.ip
    requires forall e :: e in rest ==> e in s && e.ip != op.ip
    ensures NewestFirst([front] + rest) && Stamped([front] + rest, before + [op])
  {
    SurvivorsKeepTimeOrder(s, before, op, rest);
    FrontKeepsTimeOrder(front, rest, before, op);
  }

  lemma TouchKeepsTimeOrder(s: seq<Entry>, before: seq<Op>, ip: IP, now: Instant)
    requires Distinct(s) && NewestFirst(s) && Stamped(s, before) && ClockForward(before + [Get(ip, now)])
    ensures NewestFirst(Touch(s, ip, now)) && Stamped(Touch(s, ip, now), before + [Get(ip, now)])
  {
    FindMembers(s, ip);
    if Find(s, ip).Some? {
      KeepWithout(s, ip);
      KeepNewestFirst(NotAt(ip), s);
      PutFrontKeepsTimeOrder(s, Without(s, ip), Entry(ip, Find(s, ip).value, now), before, Get(ip, now));
    } else {
      SurvivorsKeepTimeOrder(s, before, Get(ip, now), s);
    }
  }

  lemma PutKeepsTimeOrder(s: seq<Entry>, maxSize: int, before: seq<Op>, ip: IP, record: IPRecord, now: Instant)
    requires Distinct(s) && NewestFirst(s) && Stamped(s, before) && ClockForward(before + [Set(ip, record, now)])
    ensures NewestFirst(Put(s, maxSize, ip, record, now))
    ensures Stamped(Put(s, maxSize, ip, record, now), before + [Set(ip, record, now)])
  {
    var rest := if Find(s, ip).Some? then Without(s, ip) else Evict(s, maxSize);
    FindMembers(s, ip);
    if Find(s, ip).Some? {
      KeepWithout(s, ip);
      KeepNewestFirst(NotAt(ip), s);
    }
    PutFrontKeepsTimeOrder(s, rest, Entry(ip, record, now), before, Set(ip, record, now));
  }

  lemma KeepKeepsTimeOrder(s: seq<Entry>, p: Entry -> bool, before: seq<Op>, op: Op)
    requires NewestFirst(s) && Stamped(s, before) && ClockForward(before + [op]) && Touched(op).None?
    ensures NewestFirst(Keep(p, s)) && Stamped(Keep(p, s), before + [op])
  {
    KeepMembers(p, s);
    KeepNewestFirst(p, s);
    SurvivorsKeepTimeOrder(s, before, op, Keep(p, s));
  }

  lemma ApplyKeepsTimeOrder(s: seq<Entry>, maxSize: int, before: seq<Op>, op: Op)
    requires Distinct(s) && NewestFirst(s) && Stamped(s, before) && ClockForward(before + [op])
    ensures NewestFirst(Apply(s, maxSize, op)) && Stamped(Apply(s, maxSize, op), before + [op])
  {
    match op
    case Get(ip, now) => TouchKeepsTimeOrder(s, before, ip, now);
    case Set(ip, record, now) => PutKeepsTimeOrder(s, maxSize, before, ip, record, now);
    case Remove(ip) => KeepKeepsTimeOrder(s, NotAt(ip), before, op);
    case RemoveExpired(cutoff) => KeepKeepsTimeOrder(s, Unexpired(cutoff), before, op);
  }

  /** The list is always sorted by last use, and its stamps are the run's own last uses. */
  lemma {:induction false} RecencyIsTimeOrder(maxSize: int, ops: seq<Op>)
    requires ClockForward(ops)
    ensures NewestFirst(After(maxSize, ops))
    ensures Stamped(After(maxSize, ops), ops)
  {
    if ops == [] {
    } else {
      var before, op := ops[..|ops| - 1], ops[|ops| - 1];
      assert ops == before + [op];
      RecencyIsTimeOrder(maxSize, before);
      ReachableShape(maxSize, before);
      ApplyKeepsTimeOrder(After(maxSize, before), maxSize, before, op);
    }
  }

  /** In the run `ops`, the last use of `a` is no later than that of `b`. */
  ghost predicate UsedNoLater(ops: seq<Op>, a: IP, b: IP) {
    var x, y := LastTouch(ops, a), LastTouch(ops, b);
    x.Some? && y.Some? && x.value <= y.value
  }

  /** An insertion into a full cache drops one entry, and no entry was used longer ago. */
  lemma EvictsLeastRecentlyUsed(maxSize: int, ops: seq<Op>, ip: IP, record: IPRecord, now: Instant)
    returns (victim: IP)
    requires ClockForward(ops)
    requires Find(After(maxSize, ops), ip).None? && Room(maxSize) <= |After(maxSize, ops)|
    ensures var s := After(maxSize, ops);
            && Find(s, victim).Some?
            && Put(s, maxSize, ip, record, now) == [Entry(ip, record, now)] + Without(s, victim)
            && forall e :: e in s ==> UsedNoLater(ops, victim, e.ip)
  {
    var s := After(maxSize, ops);
    RecencyIsTimeOrder(maxSize, ops);
    ReachableShape(maxSize, ops);
    var last := |s| - 1;
    victim := s[last].ip;
    FindAt(s, last);
    KeepAllBut(NotAt(victim), s, last);
    assert s[..last] + s[last + 1..] == s[..last];
    assert s[last] in s;
  }
}
