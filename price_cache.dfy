/**
 * The per-service cache the price services keep in a module-level `Map`:
 * key to `{ at, data }`, read back only while younger than the service's TTL.
 */
module PriceCache {
  import opened Wrappers

  datatype Entry<D> = Entry(at: int, data: D)

  /** `getCached`: the data under `key`, provided it was stored less than `ttl` ms before `now`. */
  function Lookup<D>(entries: map<string, Entry<D>>, key: string, now: int, ttl: nat): (r: Option<D>)
    ensures r.Some? ==> key in entries && r.value == entries[key].data
  {
    if key in entries && now - entries[key].at < ttl then Some(entries[key].data) else None
  }

  /**
   * Data stored at `at` is served for exactly the `ttl` ms that follow (from `at` on,
   * and for any earlier clock reading), and storing under one key leaves the others as
   * they were.
   */
  lemma StoredIsServed<D>(entries: map<string, Entry<D>>, key: string, at: int, data: D, now: int, ttl: nat)
    ensures Lookup(entries[key := Entry(at, data)], key, now, ttl) == (if now < at + ttl then Some(data) else None)
    ensures forall other | other != key :: Lookup(entries[key := Entry(at, data)], other, now, ttl) == Lookup(entries, other, now, ttl)
  {
  }

  /** An entry that has gone stale stays stale while the clock moves on. */
  lemma StaleStaysStale<D>(entries: map<string, Entry<D>>, key: string, now: int, later: int, ttl: nat)
    requires key in entries && Lookup(entries, key, now, ttl).None? && now <= later
    ensures Lookup(entries, key, later, ttl).None?
  {
  }

  /** One service's cache; `ttl` is fixed when the service module is loaded. */
  class TtlCache<D> {
    var entries: map<string, Entry<D>>
    const ttl: nat

    constructor (ttl: nat)
      ensures this.ttl == ttl && entries == map[]
    {
      this.ttl := ttl;
      entries := map[];
    }

    function Cached(key: string, now: int): Option<D>
      reads this
    {
      Lookup(entries, key, now, ttl)
    }

    /**
     * The get-or-fetch step of `getGoldPrice`, `getOilPrice` and `getBTCPrice`: cached
     * data is returned without fetching; otherwise `fetch` is what the fetch answers,
     * its data is stored with the time `storedAt` read after it, and its error is
     * passed on with nothing stored. `fetched` tells whether the fetch ran.
     */
    method Get<E>(key: string, now: int, fetch: Result<D, E>, storedAt: int) returns (r: Result<D, E>, fetched: bool)
      modifies this
      ensures old(Cached(key, now)).Some? ==> !fetched && r == Ok(old(Cached(key, now)).value)
      ensures old(Cached(key, now)).Some? ==> entries == old(entries)
      ensures old(Cached(key, now)).None? ==> fetched && r == fetch
      ensures old(Cached(key, now)).None? && fetch.Ok? ==> entries == old(entries)[key := Entry(storedAt, fetch.value)]
      ensures old(Cached(key, now)).None? && fetch.Err? ==> entries == old(entries)
    {
      var cached := Cached(key, now);
      if cached.Some? {
        return Ok(cached.value), false;
      }
      if fetch.Err? {
        return fetch, true;
      }
      entries := entries[key := Entry(storedAt, fetch.value)];
      r, fetched := fetch, true;
    }
  }
}
