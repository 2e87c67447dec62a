/**
 * The in-memory cache service: one object holding the two dictionaries and
 * updating them in place. Every method takes the clock reading `now` that
 * the implementation would read from the wall clock, and its contract ties
 * the result and the new dictionaries to the matching function of module
 * CacheSpec applied to the old ones.
 */
module Cache {
  import CacheSpec

  class InMemoryCacheService<K(==, !new), V> {
    /** Key to value. */
    var mem: map<K, V>
    /** Key to absolute expiry time. */
    var ttl: map<K, int>

    /** The two dictionaries as a value. */
    function State(): CacheSpec.Store<K, V>
      reads this
    {
      CacheSpec.Store(mem, ttl)
    }

    /** A new cache is empty and has no expiries. */
    constructor ()
      ensures mem == map[] && ttl == map[]
    {
      mem := map[];
      ttl := map[];
    }

    /** Lazy expiry: an expired key is deleted and reads as absent. */
    method Get(key: K, now: int) returns (r: CacheSpec.Option<V>)
      modifies this
      ensures r == CacheSpec.Get(old(State()), key, now).value
      ensures State() == CacheSpec.Get(old(State()), key, now).store
    {
      if key in ttl && ttl[key] <= now {
        Delete(key);
        return CacheSpec.None;
      }
      if key in mem {
        r := CacheSpec.Some(mem[key]);
      } else {
        r := CacheSpec.None;
      }
    }

    /** Writes the value; a `ttl` argument, when given, is passed on to SetTtl. */
    method Set(key: K, value: V, ttl: CacheSpec.Option<int>, now: int)
      modifies this
      ensures State() == CacheSpec.Set(old(State()), key, value, ttl, now)
    {
      mem := mem[key := value];
      if ttl.Some? {
        SetTtl(key, ttl, now);
      }
    }

    /** None or zero removes the expiry; any other duration sets it to `now + ttl`. */
    method SetTtl(key: K, ttl: CacheSpec.Option<int>, now: int)
      modifies this
      ensures State() == CacheSpec.SetTtl(old(State()), key, ttl, now)
    {
      if ttl.None? || ttl.value == 0 {
        this.ttl := this.ttl - {key};
      } else {
        this.ttl := this.ttl[key := now + ttl.value];
      }
    }

    /** Removes the value only; the expiry stays. */
    method Delete(key: K)
      modifies this
      ensures State() == CacheSpec.Delete(old(State()), key)
    {
      mem := mem - {key};
    }
  }
}
