/**
 * The L1 cache as a value: the list of entries from most to least recently used.
 * `IpCache` proves that the linked structure on the heap refines these operations;
 * `LruTheory` proves what they mean over whole runs.
 */
module Recency {
  import opened Records
  import opened Sequences

  datatype Entry = Entry(ip: IP, record: IPRecord, stamp: Instant)

  function NotAt(ip: IP): Entry -> bool {
    (e: Entry) => e.ip != ip
  }

  function Unexpired(now: Instant): Entry -> bool {
    (e: Entry) => !e.record.Expired(now)
  }

  function Lapsed(now: Instant): Entry -> bool {
    (e: Entry) => e.record.Expired(now)
  }

  function Slot(s: seq<Entry>, ip: IP): (r: Option<Entry>)
    ensures r.Some? ==> r.value.ip == ip
  {
    if s == [] then None else if s[0].ip == ip then Some(s[0]) else Slot(s[1..], ip)
  }

  function Find(s: seq<Entry>, ip: IP): Option<IPRecord> {
    match Slot(s, ip)
    case Some(e) => Some(e.record)
    case None => None
  }

  function Without(s: seq<Entry>, ip: IP): seq<Entry> {
    Keep(NotAt(ip), s)
  }

  /** `Get`: a hit moves to the front and is stamped; a miss changes nothing. */
  function Touch(s: seq<Entry>, ip: IP, now: Instant): seq<Entry> {
    match Find(s, ip)
    case Some(record) => [Entry(ip, record, now)] + Without(s, ip)
    case None => s
  }

  /** `evictLRU` behind its size test. An empty list has nothing to evict. */
  function Evict(s: seq<Entry>, maxSize: int): seq<Entry> {
    if |s| >= maxSize && s != [] then s[..|s| - 1] else s
  }

  /** `Set`: an update in place moves to the front; an insertion may evict first. */
  function Put(s: seq<Entry>, maxSize: int, ip: IP, record: IPRecord, now: Instant): seq<Entry> {
    [Entry(ip, record, now)] + if Find(s, ip).Some? then Without(s, ip) else Evict(s, maxSize)
  }

  /** `RemoveExpired`. */
  function Sweep(s: seq<Entry>, now: Instant): seq<Entry> {
    Keep(Unexpired(now), s)
  }

  function Threats(s: seq<Entry>): nat {
    if s == [] then 0 else (if s[0].record.status == Threat then 1 else 0) + Threats(s[1..])
  }

  ghost predicate Distinct(s: seq<Entry>) {
    forall i, j :: 0 <= i < j < |s| ==> s[i].ip != s[j].ip
  }

  // ---------- one operation at a time ----------

  lemma {:induction false} FindMembers(s: seq<Entry>, ip: IP)
    ensures Slot(s, ip).None? <==> forall e :: e in s ==> e.ip != ip
    ensures Slot(s, ip).Some? ==> Slot(s, ip).value in s && Slot(s, ip).value.ip == ip
  {
    if s == [] {
    } else if s[0].ip == ip {
      assert s[0] in s;
    } else {
      FindMembers(s[1..], ip);
      assert s == [s[0]] + s[1..];
    }
  }

  lemma {:induction false} FindAt(s: seq<Entry>, k: nat)
    requires Distinct(s) && k < |s|
    ensures Slot(s, s[k].ip) == Some(s[k])
  {
    if k == 0 {
    } else {
      FindAt(s[1..], k - 1);
    }
  }

  lemma DistinctCons(e: Entry, s: seq<Entry>)
    requires Distinct(s) && forall x :: x in s ==> x.ip != e.ip
    ensures Distinct([e] + s)
  {
  }

  lemma {:induction false} KeepDistinct(p: Entry -> bool, s: seq<Entry>)
    requires Distinct(s)
    ensures Distinct(Keep(p, s))
  {
    if s == [] {
    } else {
      KeepDistinct(p, s[1..]);
      KeepMembers(p, s[1..]);
      DistinctCons(s[0], Keep(p, s[1..]));
    }
  }

  lemma {:induction false} FindKept(s: seq<Entry>, p: Entry -> bool, ip: IP)
    requires Distinct(s)
    ensures Distinct(Keep(p, s))
    ensures Slot(Keep(p, s), ip) == if Slot(s, ip).Some? && p(Slot(s, ip).value) then Slot(s, ip) else None
  {
    KeepDistinct(p, s);
    if s == [] {
    } else {
      FindKept(s[1..], p, ip);
      KeepStep(p, s);
      FindMembers(s[1..], ip);
    }
  }

  lemma {:induction false} KeepWithout(s: seq<Entry>, ip: IP)
    requires Distinct(s)
    ensures Distinct(Without(s, ip))
    ensures Find(s, ip).None? ==> Without(s, ip) == s
    ensures Find(s, ip).Some? ==> |Without(s, ip)| == |s| - 1
    ensures Subseq(Without(s, ip), s)
    ensures forall e :: e in Without(s, ip) <==> e in s && e.ip != ip
  {
    FindKept(s, NotAt(ip), ip);
    FindMembers(s, ip);
    KeepIsSubseq(NotAt(ip), s);
    KeepMembers(NotAt(ip), s);
    if Find(s, ip).Some? {
      var e := Slot(s, ip).value;
      var k :| 0 <= k < |s| && s[k] == e;
      KeepAllBut(NotAt(ip), s, k);
    } else {
      KeepAll(NotAt(ip), s);
    }
  }

  /** What the rest of the program can observe of each operation: a lookup by address. */
  lemma FindAfterTouch(s: seq<Entry>, ip: IP, now: Instant, other: IP)
    requires Distinct(s)
    ensures Distinct(Touch(s, ip, now)) && |Touch(s, ip, now)| == |s|
    ensures Find(Touch(s, ip, now), other) == Find(s, other)
  {
    KeepWithout(s, ip);
    if Find(s, ip).Some? {
      var e := Entry(ip, Find(s, ip).value, now);
      DistinctCons(e, Without(s, ip));
      FindKept(s, NotAt(ip), other);
      assert Touch(s, ip, now)[1..] == Without(s, ip);
    }
  }

  lemma FindAfterWithout(s: seq<Entry>, ip: IP, other: IP)
    requires Distinct(s)
    ensures Distinct(Without(s, ip))
    ensures Find(Without(s, ip), other) == if other == ip then None else Find(s, other)
  {
    FindKept(s, NotAt(ip), other);
  }

  lemma FindAfterSweep(s: seq<Entry>, now: Instant, other: IP)
    requires Distinct(s)
    ensures Distinct(Sweep(s, now))
    ensures var r := Find(s, other);
            Find(Sweep(s, now), other) == if r.Some? && r.value.Expired(now) then None else r
  {
    FindKept(s, Unexpired(now), other);
  }

  lemma {:induction false} FindInPrefix(s: seq<Entry>, ip: IP)
    requires Distinct(s) && s != []
    ensures var r := s[..|s| - 1];
            Slot(r, ip) == if ip == s[|s| - 1].ip then None else Slot(s, ip)
  {
    if |s| == 1 {
    } else {
      FindInPrefix(s[1..], ip);
      assert s[1..][..|s| - 2] == s[..|s| - 1][1..];
    }
  }

  lemma FindAfterPut(s: seq<Entry>, maxSize: int, ip: IP, record: IPRecord, now: Instant, other: IP)
    requires Distinct(s)
    ensures var r := Put(s, maxSize, ip, record, now);
            && Distinct(r)
            && Find(r, ip) == Some(record)
            && (other != ip && Find(r, other).Some? ==> Find(r, other) == Find(s, other))
            && (other != ip && (Find(s, ip).Some? || |s| < maxSize || (s != [] && other != s[|s| - 1].ip))
                ==> Find(r, other) == Find(s, other))
            && |r| == |s| + (if Find(s, ip).None? && (|s| < maxSize || s == []) then 1 else 0)
  {
    KeepWithout(s, ip);
    var r := Put(s, maxSize, ip, record, now);
    assert r[0] == Entry(ip, record, now);
    FindKept(s, NotAt(ip), other);
    FindMembers(s, ip);
    DistinctCons(r[0], r[1..]);
    assert r == [r[0]] + r[1..];
    if s != [] {
      FindInPrefix(s, other);
    }
  }

  /**
   * `Set` in full. The address comes first with the new record and instant. An update in place drops
   * nothing, nor does an insertion with room left; an insertion into a full list drops exactly its last
   * entry. Every other address keeps its entry, stamp included, and the entries keep their order.
   */
  lemma PutIsExact(s: seq<Entry>, maxSize: int, ip: IP, record: IPRecord, now: Instant)
    requires Distinct(s)
    ensures var r := Put(s, maxSize, ip, record, now);
            var held := exists e :: e in s && e.ip == ip;
            var drops := !held && s != [] && |s| >= maxSize;
            && r != [] && r[0] == Entry(ip, record, now) && Subseq(r[1..], s)
            && |r| == |s| + (if held || drops then 0 else 1)
            && (forall e: Entry :: e.ip != ip ==> (e in r <==> e in s && !(drops && e == s[|s| - 1])))
            && (forall e :: e in r && e.ip == ip ==> e == r[0])
  {
    KeepWithout(s, ip);
    FindMembers(s, ip);
    var r := Put(s, maxSize, ip, record, now);
    var rest := if Find(s, ip).Some? then Without(s, ip) else Evict(s, maxSize);
    assert r[1..] == rest && forall e :: e in r <==> e == r[0] || e in rest;
    if Find(s, ip).None? {
      EvictIsExact(s, maxSize);
    }
  }

  /** `Get` in full: a miss changes nothing; a hit moves the entry to the front under the new instant. */
  lemma TouchIsExact(s: seq<Entry>, ip: IP, now: Instant)
    requires Distinct(s)
    ensures var r := Touch(s, ip, now);
            && ((forall e :: e in s ==> e.ip != ip) ==> r == s)
            && (forall e :: e in s && e.ip == ip ==>
                  && |r| == |s| && r[0] == e.(stamp := now) && Subseq(r[1..], s)
                  && forall x: Entry :: x in r[1..] <==> x in s && x.ip != ip)
  {
    KeepWithout(s, ip);
    FindMembers(s, ip);
    forall e | e in s && e.ip == ip
      ensures Slot(s, ip) == Some(e)
    {
      var k :| 0 <= k < |s| && s[k] == e;
      FindAt(s, k);
    }
    if Find(s, ip).Some? {
      assert Touch(s, ip, now)[1..] == Without(s, ip);
    }
  }

  lemma EvictIsExact(s: seq<Entry>, maxSize: int)
    requires Distinct(s)
    ensures var r := Evict(s, maxSize);
            && Subseq(r, s)
            && (forall e: Entry :: e in r <==> e in s && !(s != [] && |s| >= maxSize && e == s[|s| - 1]))
  {
    SubseqRefl(s);
    if s != [] && |s| >= maxSize {
      var r := s[..|s| - 1];
      assert s == r + [s[|s| - 1]];
      SubseqRefl(r);
      SubseqAppend(r, r, s[|s| - 1]);
    }
  }

  function IsThreat(): Entry -> bool {
    (e: Entry) => e.record.status == Threat
  }

  /** `Threats` is the number of entries whose record is a threat. */
  lemma {:induction false} ThreatsIsACount(s: seq<Entry>)
    ensures Threats(s) == |Keep(IsThreat(), s)|
    ensures forall e :: e in Keep(IsThreat(), s) <==> e in s && e.record.status == Threat
  {
    KeepMembers(IsThreat(), s);
    if s == [] {
    } else {
      ThreatsIsACount(s[1..]);
      KeepStep(IsThreat(), s);
    }
  }

  // ---------- every address at once ----------

  lemma TouchEverywhere(s: seq<Entry>, ip: IP, now: Instant)
    requires Distinct(s)
    ensures Distinct(Touch(s, ip, now))
    ensures forall a :: Find(Touch(s, ip, now), a) == Find(s, a)
  {
    FindAfterTouch(s, ip, now, ip);
    forall a
      ensures Find(Touch(s, ip, now), a) == Find(s, a)
    {
      FindAfterTouch(s, ip, now, a);
    }
  }

  lemma PutEverywhere(s: seq<Entry>, maxSize: int, ip: IP, record: IPRecord, now: Instant)
    requires Distinct(s)
    ensures var r := Put(s, maxSize, ip, record, now);
            Distinct(r) && Find(r, ip) == Some(record) && forall a :: a != ip && Find(r, a).Some? ==> Find(r, a) == Find(s, a)
  {
    var r := Put(s, maxSize, ip, record, now);
    FindAfterPut(s, maxSize, ip, record, now, ip);
    forall a | a != ip && Find(r, a).Some?
      ensures Find(r, a) == Find(s, a)
    {
      FindAfterPut(s, maxSize, ip, record, now, a);
    }
  }

  lemma WithoutEverywhere(s: seq<Entry>, ip: IP)
    requires Distinct(s)
    ensures var r := Without(s, ip);
            Distinct(r) && forall a :: Find(r, a) == if a == ip then None else Find(s, a)
  {
    FindAfterWithout(s, ip, ip);
    forall a
      ensures Find(Without(s, ip), a) == if a == ip then None else Find(s, a)
    {
      FindAfterWithout(s, ip, a);
    }
  }

  lemma SweepEverywhere(s: seq<Entry>, cutoff: Instant)
    requires Distinct(s)
    ensures var r := Sweep(s, cutoff);
            Distinct(r) && forall a :: Find(r, a) == if Find(s, a).Some? && Find(s, a).value.Expired(cutoff) then None else Find(s, a)
  {
    KeepDistinct(Unexpired(cutoff), s);
    forall a
      ensures Find(Sweep(s, cutoff), a) == if Find(s, a).Some? && Find(s, a).value.Expired(cutoff) then None else Find(s, a)
    {
      FindAfterSweep(s, cutoff, a);
    }
  }

  lemma {:induction false} ThreatsAppend(s: seq<Entry>, t: seq<Entry>)
    ensures Threats(s + t) == Threats(s) + Threats(t)
  {
    if s == [] {
      assert s + t == t;
    } else {
      assert (s + t)[1..] == s[1..] + t;
      ThreatsAppend(s[1..], t);
    }
  }

  /** The sweep: exactly the expired go, the others keep their order, the threat count falls by theirs. */
  lemma {:induction false} SweepIsExact(s: seq<Entry>, now: Instant)
    ensures forall e :: e in Sweep(s, now) <==> e in s && now <= e.record.expiresAt
    ensures Subseq(Sweep(s, now), s)
    ensures Threats(Sweep(s, now)) == Threats(s) - Threats(Keep(Lapsed(now), s))
    ensures |Sweep(s, now)| == |s| - |Keep(Lapsed(now), s)|
  {
    KeepMembers(Unexpired(now), s);
    KeepIsSubseq(Unexpired(now), s);
    if s == [] {
    } else {
      SweepIsExact(s[1..], now);
      KeepStep(Unexpired(now), s);
      KeepStep(Lapsed(now), s);
    }
  }
}
