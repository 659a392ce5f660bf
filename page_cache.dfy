/** PrestaShop's shared `Cache` instance, reduced to the three calls the
    module makes on it: get, set and flush. */
module PageCache {
  import opened PhpRuntime

  /** A stored value and the time-to-live it was stored with. The TTL is
      recorded only: expiry belongs to the cache backend. */
  datatype CacheEntry = CacheEntry(value: string, ttl: int)

  /** What `get` answers for `key`: the stored value, or `false` (None). */
  function Lookup(entries: map<string, CacheEntry>, key: string): Option<string>
  {
    if key in entries then Some(entries[key].value) else None
  }

  class Cache {
    var entries: map<string, CacheEntry>

    constructor ()
      ensures entries == map[]
    {
      entries := map[];
    }

    /** The value stored under `key`, or a miss. */
    method Get(key: string) returns (r: Option<string>)
      ensures r.Some? <==> key in entries
      ensures r.Some? ==> r.value == entries[key].value
    {
      r := Lookup(entries, key);
    }

    /** Store `value` under `key`, replacing what was there; nothing else changes. */
    method Set(key: string, value: string, ttl: int)
      modifies this
      ensures entries == old(entries)[key := CacheEntry(value, ttl)]
    {
      entries := entries[key := CacheEntry(value, ttl)];
    }

    /** Drop every entry. */
    method Flush()
      modifies this
      ensures entries == map[]
    {
      entries := map[];
    }
  }
}
