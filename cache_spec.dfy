/**
 * Value-level meaning of the in-memory TTL cache.
 *
 * The cache is two dictionaries: `mem` maps a key to its value and `ttl`
 * maps a key to the absolute time at which that key expires. The wall clock
 * is an explicit argument `now`; times and durations are whole numbers.
 * Each operation is a function from the old dictionaries to the new ones;
 * the class in module Cache performs the same updates in place.
 */
module CacheSpec {

  datatype Option<T> = None | Some(value: T)

  /** The state of one cache instance: its two dictionaries. */
  datatype Store<K, V> = Store(mem: map<K, V>, ttl: map<K, int>)

  /** What `get` returns, together with the state it leaves behind. */
  datatype Lookup<K, V> = Lookup(value: Option<V>, store: Store<K, V>)

  /** One call on the cache, with the clock reading it sees. */
  datatype Call<K, V> =
    | GetCall(key: K, now: int)
    | SetCall(key: K, value: V, ttl: Option<int>, now: int)
    | SetTtlCall(key: K, ttl: Option<int>, now: int)
    | DeleteCall(key: K)

  /** The key has an expiry, and it is at or before `now`. */
  predicate Expired<K, V>(s: Store<K, V>, key: K, now: int) {
    key in s.ttl && s.ttl[key] <= now
  }

  /** `s` and `t` hold the same value and the same expiry for `k`. */
  ghost predicate Agree<K, V>(s: Store<K, V>, t: Store<K, V>, k: K) {
    && (k in s.mem <==> k in t.mem)
    && (k in s.mem ==> s.mem[k] == t.mem[k])
    && (k in s.ttl <==> k in t.ttl)
    && (k in s.ttl ==> s.ttl[k] == t.ttl[k])
  }

  /** Every key other than `key` is the same in `s` and `t`, in both dictionaries. */
  ghost predicate OnlyTouches<K(!new), V>(s: Store<K, V>, t: Store<K, V>, key: K) {
    forall k :: k != key ==> Agree(s, t, k)
  }

  /** A `ttl` argument that removes the expiry: None or zero. */
  predicate ClearsTtl(ttl: Option<int>) {
    ttl.None? || ttl.value == 0
  }

  /**
   * `delete`: removes the value only. The expiry of the key, if any, stays
   * in `ttl`. Deleting a missing key is a no-op.
   */
  function Delete<K(!new), V>(s: Store<K, V>, key: K): (r: Store<K, V>)
    ensures key !in r.mem
    ensures r.ttl == s.ttl
    ensures OnlyTouches(s, r, key)
    ensures key !in s.mem ==> r == s
  {
    Store(s.mem - {key}, s.ttl)
  }

  /**
   * `get`: lazy expiry. If the key has an expiry at or before `now`, the
   * value is deleted (as by Delete) and nothing is returned; otherwise the
   * stored value, if any, is returned and nothing changes.
   */
  function Get<K(!new), V>(s: Store<K, V>, key: K, now: int): (r: Lookup<K, V>)
    ensures r.value.Some? <==> key in s.mem && !Expired(s, key, now)
    ensures r.value.Some? ==> r.value.value == s.mem[key]
    ensures Expired(s, key, now) ==> key !in r.store.mem
    ensures !Expired(s, key, now) ==> r.store == s
    ensures r.store.ttl == s.ttl
    ensures OnlyTouches(s, r.store, key)
  {
    if Expired(s, key, now) then
      Lookup(None, Delete(s, key))
    else if key in s.mem then
      Lookup(Some(s.mem[key]), s)
    else
      Lookup(None, s)
  }

  /**
   * `set_ttl`: None or zero removes the key's expiry; any other duration
   * sets it to `now + ttl`, whether or not the key has a value. The values
   * are never touched.
   */
  function SetTtl<K(!new), V>(s: Store<K, V>, key: K, ttl: Option<int>, now: int): (r: Store<K, V>)
    ensures r.mem == s.mem
    ensures ClearsTtl(ttl) ==> key !in r.ttl
    ensures !ClearsTtl(ttl) ==> key in r.ttl && r.ttl[key] == now + ttl.value
    ensures OnlyTouches(s, r, key)
  {
    if ClearsTtl(ttl) then
      Store(s.mem, s.ttl - {key})
    else
      Store(s.mem, s.ttl[key := now + ttl.value])
  }

  /**
   * `set`: writes the value, then, only when a `ttl` argument is given,
   * applies SetTtl with it. Without one, an existing expiry is kept.
   */
  function Set<K(!new), V>(s: Store<K, V>, key: K, value: V, ttl: Option<int>, now: int): (r: Store<K, V>)
    ensures key in r.mem && r.mem[key] == value
    ensures ttl.None? ==> r.ttl == s.ttl
    ensures ttl.Some? && ClearsTtl(ttl) ==> key !in r.ttl
    ensures !ClearsTtl(ttl) ==> key in r.ttl && r.ttl[key] == now + ttl.value
    ensures OnlyTouches(s, r, key)
  {
    var written := Store(s.mem[key := value], s.ttl);
    if ttl.Some? then SetTtl(written, key, ttl, now) else written
  }

  /** The state after one call. */
  function Step<K(!new), V>(s: Store<K, V>, c: Call<K, V>): Store<K, V> {
    match c
    case GetCall(key, now) => Get(s, key, now).store
    case SetCall(key, value, ttl, now) => Set(s, key, value, ttl, now)
    case SetTtlCall(key, ttl, now) => SetTtl(s, key, ttl, now)
    case DeleteCall(key) => Delete(s, key)
  }

  /** The state after a sequence of calls, made in order. */
  function Run<K(!new), V>(s: Store<K, V>, calls: seq<Call<K, V>>): Store<K, V>
    decreases |calls|
  {
    if calls == [] then s else Run(Step(s, calls[0]), calls[1..])
  }

  /**
   * The call leaves the expiry of `k` as it is: it is about another key, or
   * it is a `get`, a `delete`, or a `set` without a `ttl` argument.
   */
  predicate KeepsExpiry<K(==), V>(c: Call<K, V>, k: K) {
    c.key != k || c.GetCall? || c.DeleteCall? || (c.SetCall? && c.ttl.None?)
  }

  /**
   * The call never gives `k` an expiry: it keeps `k`'s expiry (KeepsExpiry),
   * or it is a `set` or `set_ttl` on `k` whose `ttl` is None or zero.
   */
  predicate NeverArms<K(==), V>(c: Call<K, V>, k: K) {
    c.key != k || c.GetCall? || c.DeleteCall? || ClearsTtl(c.ttl)
  }

  /**
   * What a Python caller sees when the stored values may themselves be
   * None (here `Option<W>`): `get` returns None both for a missing or
   * expired key and for a stored None.
   */
  function PythonView<W>(r: Option<Option<W>>): (p: Option<W>)
    ensures p.Some? <==> r.Some? && r.value.Some?
    ensures p.Some? ==> p.value == r.value.value
  {
    if r.Some? then r.value else None
  }
}
