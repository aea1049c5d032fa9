/** The `ip_records` table as a map: the queries and statements of `IPRepository`. */
module Table {
  import opened Records

  type Rows = map<IP, IPRecord>

  /** `GetByIp`: only a row that is still live. */
  function GetByIp(rows: Rows, ip: IP, now: Instant): Option<IPRecord> {
    if ip in rows && rows[ip].Live(now) then Some(rows[ip]) else None
  }

  /** `GetRecord`: the row, expired or not. */
  function GetRecord(rows: Rows, ip: IP): Option<IPRecord> {
    if ip in rows then Some(rows[ip]) else None
  }

  /** What `Update` stores: unset times get their defaults. */
  function Saved(record: IPRecord, now: Instant, ttl: int): IPRecord {
    record.(
      checkedAt := if record.checkedAt == ZERO_TIME then now else record.checkedAt,
      expiresAt := if record.expiresAt == ZERO_TIME then now + ttl else record.expiresAt)
  }

  /** `Update`: insert, or on conflict overwrite every column. */
  function Update(rows: Rows, record: IPRecord, now: Instant, ttl: int): Rows {
    rows[record.ip := Saved(record, now, ttl)]
  }

  function Delete(rows: Rows, ip: IP): Rows {
    rows - {ip}
  }

  /** `DeleteExpired`: deletes `expires_at <= cutoff`, so the live rows stay. */
  function DeleteExpired(rows: Rows, cutoff: Instant): Rows {
    map ip | ip in rows && rows[ip].Live(cutoff) :: rows[ip]
  }

  function ThreatRows(rows: Rows): set<IP> {
    set ip | ip in rows && rows[ip].status == Threat
  }

  /** Rows sit under their own address. */
  ghost predicate Keyed(rows: Rows) {
    forall ip :: ip in rows ==> rows[ip].ip == ip
  }

  /** Rows sit under their own address and carry explicit times, as `Update` leaves them. */
  ghost predicate Stored(rows: Rows) {
    forall ip :: ip in rows ==>
      rows[ip].ip == ip && rows[ip].checkedAt != ZERO_TIME && rows[ip].expiresAt != ZERO_TIME
  }

  /** `GetByIp` finds a row exactly until the instant it expires, `GetRecord` at any time. */
  lemma QueriesAreExact(rows: Rows, ip: IP, now: Instant, r: IPRecord)
    ensures GetByIp(rows, ip, now) == Some(r) <==> ip in rows && rows[ip] == r && now < r.expiresAt
    ensures GetRecord(rows, ip) == Some(r) <==> ip in rows && rows[ip] == r
  {
  }

  /**
   * The statements, row by row: `Update` replaces the whole row of the record's address, with the
   * defaults for times that are not set; `Delete` removes one row; `DeleteExpired` removes those that
   * expire at the cutoff or earlier. Every other row stays as it is.
   */
  lemma StatementsAreExact(rows: Rows, record: IPRecord, now: Instant, ttl: int, a: IP)
    ensures var r := Update(rows, record, now, ttl);
            if a == record.ip then
              a in r && r[a] == IPRecord(record.ip, record.status, record.score, record.source,
                                         if record.checkedAt == 0 then now else record.checkedAt,
                                         if record.expiresAt == 0 then now + ttl else record.expiresAt, record.reported)
            else (a in r <==> a in rows) && (a in rows ==> r[a] == rows[a])
    ensures var r := Delete(rows, record.ip);
            (a in r <==> a in rows && a != record.ip) && (a in r ==> r[a] == rows[a])
    ensures var r := DeleteExpired(rows, now);
            (a in r <==> a in rows && now < rows[a].expiresAt) && (a in r ==> r[a] == rows[a])
  {
  }

  /** How one `Update` moves the two counts, as the callers' gauge arithmetic assumes. */
  lemma CountsAfterUpdate(rows: Rows, record: IPRecord, now: Instant, ttl: int)
    ensures var r := Update(rows, record, now, ttl);
            && |r| == |rows| + (if record.ip in rows then 0 else 1)
            && |ThreatRows(r)| == |ThreatRows(rows)|
                 + (if record.status == Threat then 1 else 0)
                 - (if record.ip in rows && rows[record.ip].status == Threat then 1 else 0)
  {
    var r, ip := Update(rows, record, now, ttl), record.ip;
    assert r.Keys == rows.Keys + {ip};
    ThreatRowsAfterSet(rows, ip, Saved(record, now, ttl));
  }

  lemma ThreatRowsAfterSet(rows: Rows, ip: IP, row: IPRecord)
    ensures ThreatRows(rows[ip := row]) == if row.status == Threat then ThreatRows(rows) + {ip} else ThreatRows(rows) - {ip}
  {
  }

  lemma CountsAfterDelete(rows: Rows, ip: IP)
    ensures var r := Delete(rows, ip);
            && |r| == |rows| - (if ip in rows then 1 else 0)
            && |ThreatRows(r)| == |ThreatRows(rows)|
                 - (if ip in rows && rows[ip].status == Threat then 1 else 0)
  {
    var r := Delete(rows, ip);
    assert r.Keys == rows.Keys - {ip};
    assert ThreatRows(r) == ThreatRows(rows) - {ip};
  }

  /** The rows that `DeleteExpired` deletes. */
  function Dead(rows: Rows, cutoff: Instant): set<IP> {
    set ip | ip in rows && !rows[ip].Live(cutoff)
  }

  /** `DeleteExpired` moves `Count` and `ThreatCount` by exactly the dead rows and the dead threat rows. */
  lemma CountsAfterDeleteExpired(rows: Rows, cutoff: Instant)
    ensures var r := DeleteExpired(rows, cutoff);
            && |r| == |rows| - |Dead(rows, cutoff)|
            && |ThreatRows(r)| == |ThreatRows(rows)| - |Dead(rows, cutoff) * ThreatRows(rows)|
  {
    var r := DeleteExpired(rows, cutoff);
    assert r.Keys == rows.Keys - Dead(rows, cutoff) && Dead(rows, cutoff) <= rows.Keys;
    assert ThreatRows(r) == ThreatRows(rows) - Dead(rows, cutoff) * ThreatRows(rows);
  }
}
