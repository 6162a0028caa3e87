/** The cache that remembers for a while which signatures the primary did not know
    (crates/superbank-rpc/src/status_history_cache.rs). How requests fill and consult it is in
    `AbsenceProtocol`. */
module AbsenceProofs {
  import opened Basics

  type Signature = nat

  /** Budgeted bytes per entry, and the cap on the time to live, in milliseconds. */
  const ENTRY_BYTES: nat := 384
  const MAX_TTL: nat := 300_000

  datatype Absent = Absent(at: nat, diskTip: u64)

  // ---- The cache --------------------------------------------------------------------

  function Age(now: nat, at: nat): nat {
    if now >= at then now - at else 0
  }

  /** Whether an entry still stands for a read whose local coverage starts at `floor`. */
  predicate Stands(entry: Absent, floor: u64, now: nat, ttl: nat) {
    Age(now, entry.at) < ttl && floor <= SaturatingAdd(entry.diskTip, 1)
  }

  /** The entries may lose members at any time; `None` is the disabled cache. */
  class StatusHistoryCache {
    var inner: Option<map<Signature, Absent>>
    const ttl: nat
    const capacity: nat

    /** Entries of a cache that is on live for some time, but not long. */
    ghost predicate Valid()
      reads this
    {
      inner.Some? ==> 0 < ttl <= MAX_TTL
    }

    /** The cache is off when no entry fits its bounds or none would live; its capacity is the
        largest that respects both bounds. */
    constructor (maxEntries: u64, maxBytes: u64, ttl: nat)
      ensures Valid()
      ensures inner.Some? <==> maxEntries > 0 && maxBytes >= ENTRY_BYTES && ttl > 0
      ensures inner.Some? ==> inner.value == map[]
      ensures this.ttl <= ttl && this.ttl <= MAX_TTL && (this.ttl == ttl || this.ttl == MAX_TTL)
      ensures capacity <= maxEntries && capacity * ENTRY_BYTES <= maxBytes
      ensures capacity == maxEntries || (capacity + 1) * ENTRY_BYTES > maxBytes
    {
      var cap := if maxEntries <= maxBytes / ENTRY_BYTES then maxEntries else maxBytes / ENTRY_BYTES;
      var bounded := if ttl <= MAX_TTL then ttl else MAX_TTL;
      capacity := cap;
      this.ttl := bounded;
      inner := if cap > 0 && bounded > 0 then Some(map[]) else None;
    }

    method InsertAbsent(signature: Signature, diskTip: u64, now: nat)
      requires Valid()
      modifies this
      ensures Valid()
      ensures inner == match old(inner)
                       case None => None
                       case Some(m) => Some(m[signature := Absent(now, diskTip)])
    {
      if inner.Some? {
        inner := Some(inner.value[signature := Absent(now, diskTip)]);
      }
    }

    method IsAbsent(signature: Signature, floor: u64, now: nat) returns (absent: bool)
      requires Valid()
      ensures absent <==> inner.Some? && signature in inner.value
                          && now < inner.value[signature].at + ttl
                          && floor <= inner.value[signature].diskTip + 1
      ensures absent ==> now < inner.value[signature].at + 300_000
    {
      if inner.None? || signature !in inner.value {
        return false;
      }
      absent := Stands(inner.value[signature], floor, now, ttl);
    }
  }
}
