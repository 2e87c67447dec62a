/**
 * Clients of Cache.InMemoryCacheService that replay the scenarios of the
 * cache's test suite on a fresh cache. Each returns what its `get` calls
 * read; the ensures clauses are what the scenarios expect. A real-time wait
 * of a little over `ttl` seconds becomes any later clock reading at or past
 * the expiry.
 */
module CacheScenarios {
  import opened CacheSpec
  import Cache

  /** A value set without `ttl` on a fresh cache reads back unchanged, for any key and any value. */
  method SetWithoutTtl<K(==, !new), V>(key: K, value: V, t: int, later: int) returns (r: Option<V>)
    ensures r == Some(value)
  {
    var cache := new Cache.InMemoryCacheService<K, V>();
    cache.Set(key, value, None, t);
    r := cache.Get(key, later);
  }

  /** A key never written reads as absent. */
  method GetNonexistentKey(now: int) returns (r: Option<string>)
    ensures r == None
  {
    var cache := new Cache.InMemoryCacheService<string, string>();
    r := cache.Get("nonexistent", now);
  }

  /** `set("key1", "value1", ttl=1)`: readable at once, absent once a second has passed. */
  method SetWithTtl(t: int, later: int) returns (before: Option<string>, after: Option<string>)
    requires later >= t + 1
    ensures before == Some("value1")
    ensures after == None
  {
    var cache := new Cache.InMemoryCacheService<string, string>();
    cache.Set("key1", "value1", Some(1), t);
    before := cache.Get("key1", t);
    after := cache.Get("key1", later);
  }

  /** `set("key1", "value1")` then `set_ttl("key1", 1)`: readable at once, absent once a second has passed. */
  method SetThenSetTtl(t0: int, t1: int, later: int) returns (before: Option<string>, after: Option<string>)
    requires later >= t1 + 1
    ensures before == Some("value1")
    ensures after == None
  {
    var cache := new Cache.InMemoryCacheService<string, string>();
    cache.Set("key1", "value1", None, t0);
    cache.SetTtl("key1", Some(1), t1);
    before := cache.Get("key1", t1);
    after := cache.Get("key1", later);
  }

  /** `set("key1", "value1")` then `delete("key1")`: the key reads as absent. */
  method SetThenDelete(t: int, later: int) returns (r: Option<string>)
    ensures r == None
  {
    var cache := new Cache.InMemoryCacheService<string, string>();
    cache.Set("key1", "value1", None, t);
    cache.Delete("key1");
    r := cache.Get("key1", later);
  }

  /**
   * The consequence of `delete` keeping the expiry: after the value has
   * expired, setting it again without `ttl` still reads as absent (and that
   * read drops the new value too); only once `set_ttl(k, None)` has cleared
   * the expiry does a value set again read back.
   */
  method ResetAfterExpiry(t: int, later: int) returns (expired: Option<string>, hidden: Option<string>, shown: Option<string>)
    requires later >= t + 1
    ensures expired == None
    ensures hidden == None
    ensures shown == Some("value2")
  {
    var cache := new Cache.InMemoryCacheService<string, string>();
    cache.Set("key1", "value1", Some(1), t);
    expired := cache.Get("key1", later);
    cache.Set("key1", "value2", None, later);
    hidden := cache.Get("key1", later);
    cache.SetTtl("key1", None, later);
    cache.Set("key1", "value2", None, later);
    shown := cache.Get("key1", later);
  }
}
