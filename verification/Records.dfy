/** The values every component shares: instants, IP records and results that can fail. */
module Records {
  /** The textual address that keys both stores. */
  type IP = string

  /** Nanoseconds since Go's zero time, so the zero `time.Time` is instant 0. */
  type Instant = int

  /** The zero `time.Time`, which `IPRepository.Update` reads as "not set". */
  const ZERO_TIME: Instant := 0

  datatype Option<+T> = None | Some(value: T)

  datatype Status = Safe | Threat

  datatype Source = NoSource | AbuseIPDB | ActiveDefence

  datatype IPRecord = IPRecord(
    ip: IP,
    status: Status,
    score: int,
    source: Source,
    checkedAt: Instant,
    expiresAt: Instant,
    reported: bool)
  {
    /** `ExpiresAt.Before(now)`: the test L1 applies to what it holds. */
    predicate Expired(now: Instant) {
      expiresAt < now
    }

    /** `expires_at > now`: the test L2 applies to its rows. */
    predicate Live(now: Instant) {
      expiresAt > now
    }
  }
}
