/**
 * The BTC price service: a fifteen-minute cache around the API-Ninjas request, and
 * the fifteen-minute staleness test for a stored price.
 */
module BtcPrice {
  import opened Wrappers
  import opened PriceCache

  const MinuteMs: nat := 60 * 1000
  const TtlMs: nat := 15 * MinuteMs
  const CacheKey: string := "btc"

  /**
   * `shouldUpdate(updatedAt)`: a missing time always needs an update; otherwise an
   * update is due once more than fifteen minutes have passed, measured in minutes,
   * which in whole milliseconds is more than the TTL.
   */
  function ShouldUpdate(updatedAt: Option<int>, now: int): (r: bool)
    ensures updatedAt.None? ==> r
    ensures updatedAt.Some? ==> (r <==> now - updatedAt.value > TtlMs)
  {
    if updatedAt.None? then true
    else
      var d := (now - updatedAt.value) as real;
      assert d / 60000.0 > 15.0 <==> d > 900000.0;
      d / MinuteMs as real > 15.0
  }

  /** `getBTCPrice()`, with `fetch` the answer `fetchBTCPrice()` gives on a miss. */
  method GetBTCPrice<D>(cache: TtlCache<D>, now: int, fetch: Result<D, string>, storedAt: int)
    returns (r: Result<D, string>, fetched: bool)
    requires cache.ttl == TtlMs
    modifies cache
    ensures old(cache.Cached(CacheKey, now)).Some? ==> !fetched && r == Ok(old(cache.Cached(CacheKey, now)).value) && cache.entries == old(cache.entries)
    ensures old(cache.Cached(CacheKey, now)).None? ==> fetched && r == fetch
    ensures old(cache.Cached(CacheKey, now)).None? ==>
              cache.entries == if fetch.Ok? then old(cache.entries)[CacheKey := Entry(storedAt, fetch.value)] else old(cache.entries)
  {
    r, fetched := cache.Get(CacheKey, now, fetch, storedAt);
  }

  /**
   * The cache and the staleness test agree at every moment but one: exactly fifteen
   * minutes after a price was stored, the cache no longer serves it, yet the
   * test still says no update is due.
   */
  lemma CacheAndStalenessAgree<D>(entries: map<string, Entry<D>>, at: int, data: D, now: int)
    ensures var cached := Lookup(entries[CacheKey := Entry(at, data)], CacheKey, now, TtlMs);
      && (now - at != TtlMs ==> (cached.Some? <==> !ShouldUpdate(Some(at), now)))
      && (now - at == TtlMs ==> cached.None? && !ShouldUpdate(Some(at), now))
  {
  }
}
