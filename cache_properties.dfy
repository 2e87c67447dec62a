/**
 * Properties of the cache operations of module CacheSpec: what `get`
 * returns after each kind of write, the inclusive expiry bound, the
 * frame of every call, and the consequences of `set` and `delete` leaving
 * an old expiry in place.
 */
module CacheProperties {
  import opened CacheSpec

  /** `get` on a key present in neither dictionary returns nothing and changes nothing. */
  lemma GetMissingKey<K(!new), V>(s: Store<K, V>, key: K, now: int)
    requires key !in s.mem && key !in s.ttl
    ensures Get(s, key, now) == Lookup(None, s)
  {
  }

  /** The expiry bound is inclusive: at exactly its expiry time a key reads as absent and its value is dropped. */
  lemma ExpiryIsInclusive<K(!new), V>(s: Store<K, V>, key: K)
    requires key in s.ttl
    ensures Get(s, key, s.ttl[key]).value == None
    ensures key !in Get(s, key, s.ttl[key]).store.mem
  {
  }

  /**
   * Round trip: for a key with no expiry, `set(k, v)` and then `get(k)` at
   * any time returns `v` and changes nothing. V is any type, so this holds
   * for values that stand for None too.
   */
  lemma SetThenGet<K(!new), V>(s: Store<K, V>, key: K, value: V, t: int, now: int)
    requires key !in s.ttl
    ensures var s1 := Set(s, key, value, None, t);
      Get(s1, key, now) == Lookup(Some(value), s1)
  {
  }

  /**
   * `set(k, v, ttl)` with a non-zero `ttl` at time `t` records expiry
   * `t + ttl`; `get(k)` returns `v` strictly before it, and from it on
   * returns nothing and removes the value.
   */
  lemma SetWithTtlThenGet<K(!new), V>(s: Store<K, V>, key: K, value: V, ttl: int, t: int, now: int)
    requires ttl != 0
    ensures var s1 := Set(s, key, value, Some(ttl), t);
      && key in s1.ttl && s1.ttl[key] == t + ttl
      && (now < t + ttl ==> Get(s1, key, now) == Lookup(Some(value), s1))
      && (now >= t + ttl ==> Get(s1, key, now).value == None && key !in Get(s1, key, now).store.mem)
  {
  }

  /**
   * `set(k, v, 0)` goes through `set_ttl(k, 0)`: it removes any expiry, so
   * the value is then readable at every time.
   */
  lemma SetWithZeroTtlThenGet<K(!new), V>(s: Store<K, V>, key: K, value: V, t: int, now: int)
    ensures var s1 := Set(s, key, value, Some(0), t);
      key !in s1.ttl && Get(s1, key, now) == Lookup(Some(value), s1)
  {
  }

  /** `set(k, v)` without a `ttl` writes only the value: an existing expiry is kept as it was. */
  lemma SetWithoutTtlKeepsExpiry<K(!new), V>(s: Store<K, V>, key: K, value: V, t: int)
    ensures Set(s, key, value, None, t).ttl == s.ttl
    ensures Set(s, key, value, None, t).mem == s.mem[key := value]
  {
    var r := Set(s, key, value, None, t);
    assert forall k :: k in r.mem <==> k in s.mem[key := value] by {
      forall k ensures k in r.mem <==> k in s.mem[key := value] {
        assert k != key ==> Agree(s, r, k);
      }
    }
  }

  /**
   * `set_ttl(k, None)` and `set_ttl(k, 0)` remove the expiry and leave the
   * values alone (a no-op when `k` had no expiry); afterwards `get(k)`
   * never expires `k`, at any time.
   */
  lemma ClearTtlNeverExpires<K(!new), V>(s: Store<K, V>, key: K, ttl: Option<int>, t: int, now: int)
    requires ClearsTtl(ttl)
    ensures var s1 := SetTtl(s, key, ttl, t);
      && s1.mem == s.mem
      && (key !in s.ttl ==> s1 == s)
      && !Expired(s1, key, now)
      && Get(s1, key, now) == Lookup(if key in s.mem then Some(s.mem[key]) else None, s1)
  {
    var s1 := SetTtl(s, key, ttl, t);
    if key !in s.ttl {
      assert s1.ttl == s.ttl;
    }
  }

  /**
   * `set_ttl(k, ttl)` with a non-zero `ttl` on a key without expiry keeps it
   * readable strictly before `t + ttl` and absent from then on. The expiry
   * is written even when `k` has no value.
   */
  lemma SetTtlThenGet<K(!new), V>(s: Store<K, V>, key: K, ttl: int, t: int, now: int)
    requires ttl != 0
    ensures var s1 := SetTtl(s, key, Some(ttl), t);
      && key in s1.ttl && s1.ttl[key] == t + ttl
      && (key in s.mem && now < t + ttl ==> Get(s1, key, now) == Lookup(Some(s.mem[key]), s1))
      && (now >= t + ttl ==> Get(s1, key, now).value == None)
  {
  }

  /**
   * `delete(k)` removes only the value: the expiry is kept, deleting a
   * missing key changes nothing, and `get(k)` afterwards returns nothing.
   */
  lemma DeleteThenGet<K(!new), V>(s: Store<K, V>, key: K, now: int)
    ensures Delete(s, key).ttl == s.ttl
    ensures key !in s.mem ==> Delete(s, key) == s
    ensures Get(Delete(s, key), key, now).value == None
  {
  }

  /** No value is ever read at or after its expiry. */
  lemma NoReadPastExpiry<K(!new), V>(s: Store<K, V>, key: K, now: int)
    requires Get(s, key, now).value.Some?
    ensures key in s.mem
    ensures key !in s.ttl || now < s.ttl[key]
  {
  }

  /**
   * The stale expiry outlives the value: once `k`'s expiry has passed and
   * `get` has dropped its value, a later `set(k, v)` without `ttl` stores
   * `v`, yet `get(k)` still reports it absent, at every time from the old
   * expiry on.
   */
  lemma SetAfterExpiryStillAbsent<K(!new), V>(s: Store<K, V>, key: K, value: V, t0: int, t1: int, now: int)
    requires Expired(s, key, t0)
    requires now >= s.ttl[key]
    ensures var s1 := Set(Get(s, key, t0).store, key, value, None, t1);
      && key in s1.mem && s1.mem[key] == value
      && Get(s1, key, now).value == None
  {
    var s0 := Get(s, key, t0).store;
    assert s0.ttl == s.ttl;
    var s1 := Set(s0, key, value, None, t1);
    assert s1.ttl == s.ttl;
  }

  /** Python's `get` cannot tell a stored None from a missing key. */
  lemma StoredNoneLooksMissing<K(!new), W>(s: Store<K, Option<W>>, key: K, t: int, now: int)
    requires key !in s.ttl
    ensures Get(Set(s, key, None, None, t), key, now).value == Some(None)
    ensures Get(Delete(s, key), key, now).value == None
    ensures PythonView(Get(Set(s, key, None, None, t), key, now).value)
         == PythonView(Get(Delete(s, key), key, now).value)
  {
  }

  /** Agree is an equivalence; this is the transitive step Run needs. */
  lemma AgreeTrans<K, V>(a: Store<K, V>, b: Store<K, V>, c: Store<K, V>, k: K)
    requires Agree(a, b, k) && Agree(b, c, k)
    ensures Agree(a, c, k)
  {
  }

  /** A call leaves every key but its own exactly as it was. */
  lemma StepOnlyTouches<K(!new), V>(s: Store<K, V>, c: Call<K, V>)
    ensures OnlyTouches(s, Step(s, c), c.key)
  {
  }

  /** Calls on other keys leave `k`'s value and expiry exactly as they were, however many there are. */
  lemma {:induction false} RunOtherKeys<K(!new), V>(s: Store<K, V>, calls: seq<Call<K, V>>, k: K)
    requires forall i :: 0 <= i < |calls| ==> calls[i].key != k
    ensures Agree(s, Run(s, calls), k)
    decreases |calls|
  {
    if calls != [] {
      var s1 := Step(s, calls[0]);
      StepOnlyTouches(s, calls[0]);
      assert Agree(s, s1, k);
      RunOtherKeys(s1, calls[1..], k);
      AgreeTrans(s, s1, Run(s1, calls[1..]), k);
    }
  }

  /**
   * Only `set_ttl(k, _)` and `set(k, _, ttl)` with a `ttl` argument change
   * `k`'s expiry: across any sequence of other calls it stays exactly as it
   * was, present or absent.
   */
  lemma {:induction false} RunKeepsExpiry<K(!new), V>(s: Store<K, V>, calls: seq<Call<K, V>>, k: K)
    requires forall i :: 0 <= i < |calls| ==> KeepsExpiry(calls[i], k)
    ensures var r := Run(s, calls);
      (k in r.ttl <==> k in s.ttl) && (k in s.ttl ==> r.ttl[k] == s.ttl[k])
    decreases |calls|
  {
    if calls != [] {
      var c := calls[0];
      var s1 := Step(s, c);
      assert KeepsExpiry(c, k);
      if c.key != k {
        StepOnlyTouches(s, c);
        assert Agree(s, s1, k);
      } else {
        assert s1.ttl == s.ttl;
      }
      RunKeepsExpiry(s1, calls[1..], k);
    }
  }

  /**
   * Once `k`'s expiry is at or before `now`, no sequence of `get`, `delete`,
   * `set` without `ttl`, or calls on other keys makes `k` readable at `now`
   * again, whatever values are stored in between.
   */
  lemma StaleExpiryHidesLaterValues<K(!new), V>(s: Store<K, V>, calls: seq<Call<K, V>>, k: K, now: int)
    requires Expired(s, k, now)
    requires forall i :: 0 <= i < |calls| ==> KeepsExpiry(calls[i], k)
    ensures Get(Run(s, calls), k, now).value == None
  {
    RunKeepsExpiry(s, calls, k);
  }

  /** A key without expiry gets none from any sequence of calls that never arm one on it. */
  lemma {:induction false} RunNeverArms<K(!new), V>(s: Store<K, V>, calls: seq<Call<K, V>>, k: K)
    requires k !in s.ttl
    requires forall i :: 0 <= i < |calls| ==> NeverArms(calls[i], k)
    ensures k !in Run(s, calls).ttl
    decreases |calls|
  {
    if calls != [] {
      var c := calls[0];
      var s1 := Step(s, c);
      assert NeverArms(c, k);
      if c.key != k {
        StepOnlyTouches(s, c);
        assert Agree(s, s1, k);
      }
      assert k !in s1.ttl;
      RunNeverArms(s1, calls[1..], k);
    }
  }

  /**
   * No spontaneous expiry: a key without expiry (for one, right after
   * `set_ttl(k, None)` or `set_ttl(k, 0)`) stays without one across any
   * sequence of calls that never arm an expiry on it, so `get` then returns
   * whatever value it holds, at every time.
   */
  lemma PersistentKeyNeverExpires<K(!new), V>(s: Store<K, V>, calls: seq<Call<K, V>>, k: K, now: int)
    requires k !in s.ttl
    requires forall i :: 0 <= i < |calls| ==> NeverArms(calls[i], k)
    ensures var r := Run(s, calls);
      Get(r, k, now).value == if k in r.mem then Some(r.mem[k]) else None
  {
    RunNeverArms(s, calls, k);
  }
}
