/**
 * The Redis keyspace the crate shares between its two token domains: string
 * keys, one value per key, and an optional absolute expiry per key, read
 * against a server clock in seconds. Only the three commands the crate sends
 * are modelled: GET, SET (no expiry) and SETEX (expiry `ttl` seconds from now).
 */
module Redis {
  import opened Wrappers

  /** A stored value and the instant it expires at; `None` means no TTL. */
  datatype Entry<V> = Entry(value: V, expiresAt: Option<int>)

  /** The keyspace together with the server clock. Expired entries may linger
      in `entries` (Redis evicts lazily); `Lookup` never shows them. */
  datatype State<V> = State(entries: map<string, Entry<V>>, now: int)

  /** A key whose expiry instant has been reached is gone. */
  predicate Live<V>(e: Entry<V>, now: int)
  {
    e.expiresAt.None? || now < e.expiresAt.value
  }

  /** What GET answers: the value under `key`, unless absent or expired. */
  function Lookup<V>(s: State<V>, key: string): Option<V>
  {
    if key in s.entries && Live(s.entries[key], s.now) then Some(s.entries[key].value) else None
  }

  /** The clock moves forward by `dt` seconds; nothing is written. */
  function Elapse<V>(s: State<V>, dt: nat): State<V>
  {
    State(s.entries, s.now + dt)
  }

  /** SET key value: the value replaces any previous one, any TTL is cleared,
      and it stays visible however much time passes. */
  function Write<V>(s: State<V>, key: string, v: V): (r: State<V>)
    ensures r.now == s.now
    ensures forall dt: nat :: Lookup(Elapse(r, dt), key) == Some(v)
    ensures forall k, dt: nat :: k != key ==> Lookup(Elapse(r, dt), k) == Lookup(Elapse(s, dt), k)
    ensures r.entries - {key} == s.entries - {key}
  {
    State(s.entries[key := Entry(v, None)], s.now)
  }

  /** SETEX key ttl value: the value replaces any previous one and is visible
      for exactly `ttl` seconds. Redis refuses a TTL that is not positive. */
  function WriteEx<V>(s: State<V>, key: string, ttl: int, v: V): (r: State<V>)
    requires ttl > 0
    ensures r.now == s.now
    ensures forall dt: nat :: Lookup(Elapse(r, dt), key) == (if dt < ttl then Some(v) else None)
    ensures forall k, dt: nat :: k != key ==> Lookup(Elapse(r, dt), k) == Lookup(Elapse(s, dt), k)
    ensures r.entries - {key} == s.entries - {key}
  {
    State(s.entries[key := Entry(v, Some(s.now + ttl))], s.now)
  }

  /** Time only hides entries: whatever is visible later was visible before. */
  lemma LookupAfterElapse<V>(s: State<V>, key: string, dt: nat)
    ensures Lookup(Elapse(s, dt), key).Some? ==> Lookup(Elapse(s, dt), key) == Lookup(s, key)
  {
  }

  /** Why a GET did not produce a reply. */
  datatype StoreError = ConnectionLost

  /** A handle on the shared Redis server, as the crate's pooled connection. */
  class Store<V> {
    var entries: map<string, Entry<V>>
    var now: int

    /** The abstract state this handle shows. */
    function Snapshot(): State<V>
      reads this
    {
      State(entries, now)
    }

    /** A handle on the shared server, whose keyspace holds whatever other
        instances wrote before: it shows exactly the server's current state. */
    constructor (s: State<V>)
      ensures Snapshot() == s
    {
      this.entries := s.entries;
      this.now := s.now;
    }

    /** GET key; `lost` stands for a transport failure of this one command. */
    method Get(key: string, lost: bool) returns (reply: Result<Option<V>, StoreError>)
      ensures lost ==> reply == Err(ConnectionLost)
      ensures !lost ==> reply == Ok(Lookup(Snapshot(), key))
    {
      if lost {
        reply := Err(ConnectionLost);
      } else if key in entries && Live(entries[key], now) {
        reply := Ok(Some(entries[key].value));
      } else {
        reply := Ok(None);
      }
    }

    /** SET key value */
    method Set(key: string, v: V)
      modifies this
      ensures Snapshot() == Write(old(Snapshot()), key, v)
    {
      entries := entries[key := Entry(v, None)];
    }

    /** SETEX key ttl value */
    method SetEx(key: string, ttl: int, v: V)
      requires ttl > 0
      modifies this
      ensures Snapshot() == WriteEx(old(Snapshot()), key, ttl, v)
    {
      entries := entries[key := Entry(v, Some(now + ttl))];
    }
  }
}
