/**
 * The L1 cache on the heap: a map of entries that point into a linked recency list.
 * `Contents` is the recency list as a value; every method refines its operation of `Recency`.
 */
module IpCache {
  import opened Records
  import opened Sequences
  import opened Recency
  import opened LinkedList

  class CacheEntry {
    var record: IPRecord
    const element: Element
    var timestamp: Instant

    constructor (record: IPRecord, element: Element, timestamp: Instant)
      ensures this.record == record && this.element == element && this.timestamp == timestamp
    {
      this.record, this.element, this.timestamp := record, element, timestamp;
    }
  }

  /** The list's values are exactly the map's keys, and each entry's element is its own list node. */
  ghost predicate Linked(cache: map<IP, CacheEntry>, nodes: seq<Element>) {
    && (forall i :: 0 <= i < |nodes| ==> nodes[i].value in cache && cache[nodes[i].value].element == nodes[i])
    && (forall ip :: ip in cache ==> cache[ip].element in nodes && cache[ip].element.value == ip)
  }

  /** `contents` lists what the entries hold, in list order. */
  ghost predicate Spells(cache: map<IP, CacheEntry>, nodes: seq<Element>, contents: seq<Entry>)
    requires Linked(cache, nodes)
    reads set ip | ip in cache :: cache[ip]
  {
    && |contents| == |nodes|
    && (forall i :: 0 <= i < |nodes| ==>
          contents[i] == Entry(nodes[i].value, cache[nodes[i].value].record, cache[nodes[i].value].timestamp))
  }

  class IPCache {
    var cache: map<IP, CacheEntry>
    const lru: List
    const maxSize: int
    var threatCount: int
    ghost var Contents: seq<Entry>
    ghost var Repr: set<object>

    /** Everything but the counter: map, list and `Contents` agree. */
    ghost predicate Structured()
      reads this, Repr
      ensures Structured() ==> this in Repr
    {
      && this in Repr && lru in Repr && lru.Repr <= Repr && this !in lru.Repr
      && (forall ip :: ip in cache ==> cache[ip] in Repr && cache[ip] !in lru.Repr)
      && lru.Valid()
      && Linked(cache, lru.nodes)
      && Spells(cache, lru.nodes, Contents)
    }

    ghost predicate Valid()
      reads this, Repr
      ensures Valid() ==> this in Repr
    {
      Structured() && threatCount == Threats(Contents)
    }

    constructor (maxSize: int)
      ensures Valid() && fresh(Repr) && this.maxSize == maxSize && Contents == []
    {
      cache := map[];
      lru := new List();
      this.maxSize := maxSize;
      threatCount := 0;
      Contents := [];
      new;
      Repr := {this} + lru.Repr;
    }

    /** `MoveToFront` on an entry's element. */
    method Promote(entry: CacheEntry, ghost k: nat)
      requires Structured() && k < |lru.nodes| && lru.nodes[k] == entry.element
      modifies this, lru.Repr
      ensures Structured() && Repr == old(Repr)
      ensures cache == old(cache) && threatCount == old(threatCount)
      ensures lru.nodes == ToFront(old(lru.nodes), k)
      ensures Contents == ToFront(old(Contents), k)
    {
      PureMove(cache, lru.nodes, Contents, k);
      lru.MoveToFront(entry.element, k);
      Contents := ToFront(Contents, k);
    }

    /** The assignments to an entry's fields. */
    method Write(entry: CacheEntry, ghost k: nat, record: IPRecord, now: Instant)
      requires Structured() && k < |lru.nodes| && lru.nodes[k] == entry.element && entry in cache.Values
      modifies this, entry
      ensures Structured() && Repr == old(Repr)
      ensures cache == old(cache) && threatCount == old(threatCount) && lru.nodes == old(lru.nodes)
      ensures Contents == old(Contents)[k := Entry(entry.element.value, record, now)]
    {
      entry.record := record;
      entry.timestamp := now;
      Contents := Contents[k := Entry(entry.element.value, record, now)];
    }

    method Get(ip: IP, now: Instant) returns (record: Option<IPRecord>)
      requires Valid()
      modifies Repr
      ensures Valid() && Repr == old(Repr)
      ensures record == Find(old(Contents), ip)
      ensures Contents == Touch(old(Contents), ip, now)
    {
      Holds(cache, lru.nodes, Contents, ip);
      if ip !in cache {
        return None;
      }
      var found := Refresh(ip, now);
      return Some(found);
    }

    /** `Get` on an address that is held. */
    method Refresh(ip: IP, now: Instant) returns (record: IPRecord)
      requires Valid() && ip in cache
      modifies Repr
      ensures Valid() && Repr == old(Repr)
      ensures Find(old(Contents), ip) == Some(record)
      ensures Contents == [Entry(ip, record, now)] + Without(old(Contents), ip)
    {
      var entry := cache[ip];
      record := entry.record;
      ghost var k := Hit(cache, lru.nodes, Contents, ip, record, now);
      Promote(entry, k);
      Write(entry, 0, record, now);
    }

    method Set(ip: IP, record: IPRecord, now: Instant)
      requires Valid()
      modifies Repr
      ensures Valid() && fresh(Repr - old(Repr))
      ensures Contents == Put(old(Contents), maxSize, ip, record, now)
    {
      Holds(cache, lru.nodes, Contents, ip);
      if ip in cache {
        Overwrite(ip, record, now);
        return;
      }
      MakeRoom();
      Insert(ip, record, now);
    }

    /** `Set` on an address that is held: an update in place. */
    method Overwrite(ip: IP, record: IPRecord, now: Instant)
      requires Valid() && ip in cache
      modifies Repr
      ensures Valid() && Repr == old(Repr)
      ensures Contents == [Entry(ip, record, now)] + Without(old(Contents), ip)
    {
      var entry := cache[ip];
      ghost var k := Hit(cache, lru.nodes, Contents, ip, record, now);
      Recount(entry.record, record);
      Rewrite(entry, k, record, now);
    }

    /** The counter's share of an update in place. */
    method Recount(held: IPRecord, record: IPRecord)
      requires Structured()
      modifies this`threatCount
      ensures Structured()
      ensures threatCount == old(threatCount) + Weight(record) - Weight(held)
    {
      if held.status == Threat && record.status != Threat {
        threatCount := threatCount - 1;
      } else if held.status != Threat && record.status == Threat {
        threatCount := threatCount + 1;
      }
    }

    /** An entry's new fields, and its move to the front. */
    method Rewrite(entry: CacheEntry, ghost k: nat, record: IPRecord, now: Instant)
      requires Structured() && k < |lru.nodes| && lru.nodes[k] == entry.element && entry in cache.Values
      modifies this, entry, lru.Repr
      ensures Structured() && Repr == old(Repr)
      ensures cache == old(cache) && threatCount == old(threatCount)
      ensures Contents == ToFront(old(Contents)[k := Entry(entry.element.value, record, now)], k)
    {
      Write(entry, k, record, now);
      Promote(entry, k);
    }

    /** `Set` on a new address: evict when the cache is full. */
    method MakeRoom()
      requires Valid()
      modifies Repr
      ensures Valid() && Repr == old(Repr)
      ensures Contents == Evict(old(Contents), maxSize)
      ensures cache.Keys <= old(cache.Keys)
    {
      Shape(cache, lru.nodes, Contents);
      if |cache| >= maxSize {
        EvictLRU();
      }
    }

    /** `Set` on a new address, once there is room. */
    method Insert(ip: IP, record: IPRecord, now: Instant)
      requires Valid() && ip !in cache
      modifies Repr
      ensures Valid() && fresh(Repr - old(Repr))
      ensures Contents == [Entry(ip, record, now)] + old(Contents)
    {
      if record.status == Threat {
        threatCount := threatCount + 1;
      }
      Attach(ip, record, now);
    }

    /** `PushFront` and the map insertion. */
    method Attach(ip: IP, record: IPRecord, now: Instant)
      requires Structured() && ip !in cache
      modifies Repr
      ensures Structured() && fresh(Repr - old(Repr)) && threatCount == old(threatCount)
      ensures Contents == [Entry(ip, record, now)] + old(Contents)
    {
      ghost var nodes := lru.nodes;
      var element := lru.PushFront(ip);
      var entry := new CacheEntry(record, element, now);
      LinkedInsert(cache, nodes, Contents, ip, entry);
      cache := cache[ip := entry];
      Contents := [Entry(ip, record, now)] + Contents;
      Repr := Repr + {element, entry};
    }

    /** The list removal and the map deletion of one entry. */
    method Detach(ip: IP, ghost k: nat)
      requires Structured() && ip in cache && k < |lru.nodes| && lru.nodes[k] == cache[ip].element
      modifies this, lru.Repr
      ensures Structured() && Repr == old(Repr) && threatCount == old(threatCount)
      ensures cache == old(cache) - {ip}
      ensures Contents == old(Contents)[..k] + old(Contents)[k + 1..]
    {
      LinkedDrop(cache, lru.nodes, Contents, k);
      lru.Remove(cache[ip].element, k);
      cache := cache - {ip};
      Contents := Contents[..k] + Contents[k + 1..];
    }

    method Remove(ip: IP)
      requires Valid()
      modifies Repr
      ensures Valid() && Repr == old(Repr)
      ensures Contents == Without(old(Contents), ip)
      ensures cache == old(cache) - {ip}
    {
      Holds(cache, lru.nodes, Contents, ip);
      if ip in cache {
        Drop(ip);
      }
    }

    /** The bookkeeping `Remove` and `evictLRU` share: counter, list node and map entry of one address. */
    method Drop(ip: IP)
      requires Valid() && ip in cache
      modifies Repr
      ensures Valid() && Repr == old(Repr)
      ensures Contents == Without(old(Contents), ip)
      ensures cache == old(cache) - {ip}
    {
      ghost var k := DropAt(cache, lru.nodes, Contents, ip);
      if cache[ip].record.status == Threat {
        threatCount := threatCount - 1;
      }
      Detach(ip, k);
    }

    method EvictLRU()
      requires Valid()
      modifies Repr
      ensures Valid() && Repr == old(Repr)
      ensures Contents == Evict(old(Contents), |old(Contents)|)
      ensures cache.Keys <= old(cache.Keys)
    {
      var element := lru.Back();
      if element != null {
        var ip := element.value;
        if ip in cache {
          ghost var k := DropAt(cache, lru.nodes, Contents, ip);
          Drop(ip);
        }
      }
    }

    /** The sweep visits the map in an order the language leaves open. */
    method RemoveExpired(now: Instant)
      requires Valid()
      modifies Repr
      ensures Valid() && Repr == old(Repr)
      ensures Contents == Sweep(old(Contents), now)
    {
      var todo := cache.Keys;
      Shape(cache, lru.nodes, Contents);
      while todo != {}
        invariant Valid() && Repr == old(Repr)
        invariant todo <= cache.Keys
        invariant Sweep(Contents, now) == Sweep(old(Contents), now)
        invariant forall e :: e in Contents && e.record.Expired(now) ==> e.ip in todo
        decreases todo
      {
        var ip :| ip in todo;
        Visit(ip, now);
        todo := todo - {ip};
      }
      KeepAll(Unexpired(now), Contents);
    }

    /** One turn of the sweep. */
    method Visit(ip: IP, now: Instant)
      requires Valid() && ip in cache
      modifies Repr
      ensures Valid() && Repr == old(Repr)
      ensures old(cache.Keys) - {ip} <= cache.Keys
      ensures Sweep(Contents, now) == Sweep(old(Contents), now)
      ensures forall e :: e in Contents && e.record.Expired(now) ==> e in old(Contents) && e.ip != ip
    {
      Shape(cache, lru.nodes, Contents);
      SweepOne(Contents, ip, now);
      if cache[ip].record.Expired(now) {
        Remove(ip);
      }
    }

    method Size() returns (n: int)
      ensures n == maxSize
    {
      n := maxSize;
    }

    method NumOfEntries() returns (n: int)
      requires Valid()
      ensures n == |Contents|
    {
      Shape(cache, lru.nodes, Contents);
      n := |cache|;
    }

    method ThreatCount() returns (n: int)
      requires Valid()
      ensures n == Threats(Contents)
    {
      n := threatCount;
    }
  }

  // ---------- the structure, without the heap ----------

  /** The list has one node per key, so no address twice and as many nodes as map entries. */
  lemma Shape(cache: map<IP, CacheEntry>, nodes: seq<Element>, contents: seq<Entry>)
    requires Linked(cache, nodes) && Spells(cache, nodes, contents)
    requires forall i, j :: 0 <= i < j < |nodes| ==> nodes[i] != nodes[j]
    ensures Distinct(contents)
    ensures |cache| == |contents|
    ensures forall ip :: ip in cache <==> Find(contents, ip).Some?
    ensures forall ip :: ip in cache ==> Find(contents, ip) == Some(cache[ip].record)
  {
    var keys := seq(|contents|, i requires 0 <= i < |contents| => contents[i].ip);
    assert forall i :: 0 <= i < |keys| ==> keys[i] in cache && cache[keys[i]].element == nodes[i];
    forall ip
      ensures ip in cache <==> ip in keys
      ensures ip in cache <==> Find(contents, ip).Some?
      ensures ip in cache ==> Find(contents, ip) == Some(cache[ip].record)
    {
      FindMembers(contents, ip);
      if ip in cache {
        var k := Position(cache, nodes, contents, ip);
        assert keys[k] == ip;
        FindAt(contents, k);
      }
    }
    SizeOfListing(cache.Keys, keys);
  }

  lemma Position(cache: map<IP, CacheEntry>, nodes: seq<Element>, contents: seq<Entry>, ip: IP) returns (k: nat)
    requires Linked(cache, nodes) && Spells(cache, nodes, contents) && ip in cache
    ensures k < |nodes| && nodes[k] == cache[ip].element
    ensures contents[k] == Entry(ip, cache[ip].record, cache[ip].timestamp)
  {
    k :| 0 <= k < |nodes| && nodes[k] == cache[ip].element;
  }

  function ToFront<T>(s: seq<T>, k: nat): (r: seq<T>)
    requires k < |s|
    ensures |r| == |s| && r[0] == s[k]
    ensures forall i :: 0 < i <= k ==> r[i] == s[i - 1]
    ensures forall i :: k < i < |s| ==> r[i] == s[i]
  {
    [s[k]] + s[..k] + s[k + 1..]
  }

  lemma ToFrontMembers<T>(s: seq<T>, k: nat)
    requires k < |s|
    ensures forall x :: x in s ==> x in ToFront(s, k)
  {
    forall i | 0 <= i < |s|
      ensures s[i] in ToFront(s, k)
    {
      assert ToFront(s, k)[if i < k then i + 1 else if i == k then 0 else i] == s[i];
    }
  }

  lemma PureMove(cache: map<IP, CacheEntry>, nodes: seq<Element>, contents: seq<Entry>, k: nat)
    requires Linked(cache, nodes) && Spells(cache, nodes, contents) && k < |nodes|
    ensures Linked(cache, ToFront(nodes, k))
    ensures Spells(cache, ToFront(nodes, k), ToFront(contents, k))
  {
    ToFrontMembers(nodes, k);
  }

  lemma DropAt(cache: map<IP, CacheEntry>, nodes: seq<Element>, contents: seq<Entry>, ip: IP) returns (k: nat)
    requires Linked(cache, nodes) && Spells(cache, nodes, contents) && ip in cache
    requires forall i, j :: 0 <= i < j < |nodes| ==> nodes[i] != nodes[j]
    ensures k < |nodes| && nodes[k] == cache[ip].element && nodes[k].value == ip
    ensures Find(contents, ip) == Some(cache[ip].record)
    ensures Without(contents, ip) == contents[..k] + contents[k + 1..]
    ensures k + 1 == |nodes| ==> Without(contents, ip) == contents[..|contents| - 1]
    ensures Threats(Without(contents, ip)) == Threats(contents) - Weight(cache[ip].record)
  {
    Shape(cache, nodes, contents);
    k := Position(cache, nodes, contents, ip);
    PureDrop(contents, k);
  }

  /**
   * A hit is one position of the list; rewriting it and moving it to the front, in either order,
   * is an update in place of `Recency`.
   */
  lemma Hit(cache: map<IP, CacheEntry>, nodes: seq<Element>, contents: seq<Entry>, ip: IP, record: IPRecord, now: Instant)
    returns (k: nat)
    requires Linked(cache, nodes) && Spells(cache, nodes, contents) && ip in cache
    requires forall i, j :: 0 <= i < j < |nodes| ==> nodes[i] != nodes[j]
    ensures k < |nodes| && nodes[k] == cache[ip].element && nodes[k].value == ip
    ensures Find(contents, ip) == Some(cache[ip].record)
    ensures ToFront(contents, k)[0 := Entry(ip, record, now)] == [Entry(ip, record, now)] + Without(contents, ip)
    ensures ToFront(contents[k := Entry(ip, record, now)], k) == [Entry(ip, record, now)] + Without(contents, ip)
    ensures Threats([Entry(ip, record, now)] + Without(contents, ip))
         == Threats(contents) + Weight(record) - Weight(cache[ip].record)
  {
    k := DropAt(cache, nodes, contents, ip);
    ToFrontRewritten(contents, k, Entry(ip, record, now));
  }

  lemma ToFrontRewritten<T>(s: seq<T>, k: nat, e: T)
    requires k < |s|
    ensures ToFront(s, k)[0 := e] == [e] + (s[..k] + s[k + 1..])
    ensures ToFront(s[k := e], k) == [e] + (s[..k] + s[k + 1..])
  {
  }

  lemma Holds(cache: map<IP, CacheEntry>, nodes: seq<Element>, contents: seq<Entry>, ip: IP)
    requires Linked(cache, nodes) && Spells(cache, nodes, contents)
    requires forall i, j :: 0 <= i < j < |nodes| ==> nodes[i] != nodes[j]
    ensures |cache| == |contents|
    ensures ip in cache <==> Find(contents, ip).Some?
    ensures ip !in cache ==> Without(contents, ip) == contents
  {
    Shape(cache, nodes, contents);
    KeepWithout(contents, ip);
  }

  function Weight(record: IPRecord): nat {
    if record.status == Threat then 1 else 0
  }

  /** Deleting by position is deleting by address. */
  lemma PureDrop(s: seq<Entry>, k: nat)
    requires Distinct(s) && k < |s|
    ensures Without(s, s[k].ip) == s[..k] + s[k + 1..]
    ensures Threats(Without(s, s[k].ip)) == Threats(s) - Weight(s[k].record)
  {
    KeepAllBut(NotAt(s[k].ip), s, k);
    ThreatsDrop(s[..k], s[k], s[k + 1..]);
    assert s == s[..k] + [s[k]] + s[k + 1..];
  }

  lemma ThreatsDrop(front: seq<Entry>, e: Entry, back: seq<Entry>)
    ensures Threats(front + [e] + back) == Threats(front + back) + Weight(e.record)
  {
    ThreatsAppend(front + [e], back);
    ThreatsAppend(front, [e]);
    ThreatsAppend(front, back);
  }

  lemma LinkedInsert(cache: map<IP, CacheEntry>, nodes: seq<Element>, contents: seq<Entry>, ip: IP, entry: CacheEntry)
    requires Linked(cache, nodes) && Spells(cache, nodes, contents)
    requires ip !in cache && entry.element.value == ip
    ensures Linked(cache[ip := entry], [entry.element] + nodes)
    ensures Spells(cache[ip := entry], [entry.element] + nodes, [Entry(ip, entry.record, entry.timestamp)] + contents)
  {
  }

  /** Visiting one address removes it when expired, and leaves the rest of the sweep to do. */
  lemma SweepOne(s: seq<Entry>, ip: IP, now: Instant)
    requires Distinct(s) && Find(s, ip).Some?
    ensures Distinct(Without(s, ip))
    ensures Find(s, ip).value.Expired(now) ==> Sweep(Without(s, ip), now) == Sweep(s, now)
    ensures !Find(s, ip).value.Expired(now) ==> forall e :: e in s && e.record.Expired(now) ==> e.ip != ip
    ensures forall e :: e in Without(s, ip) ==> e in s && e.ip != ip
  {
    KeepWithout(s, ip);
    forall e | e in s && e.ip == ip
      ensures e == Slot(s, ip).value
    {
      var k :| 0 <= k < |s| && s[k] == e;
      FindAt(s, k);
    }
    if Find(s, ip).value.Expired(now) {
      KeepKeep(Unexpired(now), NotAt(ip), s);
    }
  }

  lemma LinkedDrop(cache: map<IP, CacheEntry>, nodes: seq<Element>, contents: seq<Entry>, k: nat)
    requires Linked(cache, nodes) && Spells(cache, nodes, contents) && k < |nodes|
    requires forall i, j :: 0 <= i < j < |nodes| ==> nodes[i] != nodes[j]
    ensures Linked(cache - {nodes[k].value}, nodes[..k] + nodes[k + 1..])
    ensures Spells(cache - {nodes[k].value}, nodes[..k] + nodes[k + 1..], contents[..k] + contents[k + 1..])
  {
    NodesDrop(nodes, k);
    SpellsDrop(cache, nodes, contents, k);
  }

  lemma NodesDrop(nodes: seq<Element>, k: nat)
    requires k < |nodes|
    requires forall i, j :: 0 <= i < j < |nodes| ==> nodes[i] != nodes[j]
    ensures var rest := nodes[..k] + nodes[k + 1..];
            && (forall n :: n in rest <==> n in nodes && n != nodes[k])
  {
    var rest := nodes[..k] + nodes[k + 1..];
    forall n | n in nodes && n != nodes[k]
      ensures n in rest
    {
      var i :| 0 <= i < |nodes| && nodes[i] == n;
      assert rest[if i < k then i else i - 1] == n;
    }
  }

  lemma SpellsDrop(cache: map<IP, CacheEntry>, nodes: seq<Element>, contents: seq<Entry>, k: nat)
    requires Linked(cache, nodes) && Spells(cache, nodes, contents) && k < |nodes|
    requires forall i, j :: 0 <= i < j < |nodes| ==> nodes[i] != nodes[j]
    requires Linked(cache - {nodes[k].value}, nodes[..k] + nodes[k + 1..])
    ensures Spells(cache - {nodes[k].value}, nodes[..k] + nodes[k + 1..], contents[..k] + contents[k + 1..])
  {
  }
}
