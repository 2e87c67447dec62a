# In-memory TTL cache of the weather backend, in Dafny

The weather backend keeps an in-memory key-value cache with per-key
time-to-live, `InMemoryCacheService`. It holds two dictionaries: `_mem`, key
to value, and `_ttl`, key to the absolute time at which the key expires. It
has four operations:

- `get(key)` does lazy expiry. If the key's expiry is at or before the
  current time, it deletes the key's value (through `delete`), keeps its
  expiry and returns None. Otherwise it returns the stored value, or None.
- `set(key, value, ttl=None)` writes the value. Only when a `ttl` argument
  is given does it pass it on to `set_ttl`.
- `set_ttl(key, ttl)` removes the expiry when `ttl` is None or zero.
  Otherwise it sets the expiry to now + `ttl`, whether or not the key holds
  a value.
- `delete(key)` removes the value and nothing else.

The project has four modules:

- `CacheSpec` (cache_spec.dfy) gives the meaning of each operation as a
  function from the old dictionaries (`Store`) to the new ones. `Get`
  returns the value read together with the new state. The wall clock is an
  explicit integer argument `now`. `Call`, `Step` and `Run` describe a
  sequence of calls, so that properties spanning many calls can be stated.
- `CacheProperties` (cache_properties.dfy) holds the lemmas. They cover
  round trips, the inclusive expiry bound, the frame of every call, and
  what follows from `set` and `delete` leaving an old expiry in place.
- `Cache` (cache.dfy) holds the class `InMemoryCacheService`. It has the
  two maps as fields and updates them in place. `Get` calls `Delete` on
  expiry and `Set` calls `SetTtl`, as the Python class does (cache.py:46,
  53). Each method's
  contract equates its result and the new fields with the `CacheSpec`
  function applied to the old fields.
- `CacheScenarios` (cache_scenarios.dfy) replays the scenarios of the
  cache's test suite on a fresh object, as clients of the class.

Keys are a type parameter `K`, because the test suite also uses None as a
key. Values are a type parameter `V`. `get` returns `Option<V>`. When the
stored values can themselves be None (`V = Option<W>`), `PythonView` gives
what a Python caller sees. In that view, a stored None and a missing key
give the same result.

Two behaviours of the code shape everything below:

- `set` without a `ttl` keeps an existing expiry (cache.py:52-53).
- `delete`, and the delete done by `get` on expiry, pops only `_mem`, never
  `_ttl` (cache.py:46, 62). The interface's docstring "Deletes the specified
  key" (cache.py:24) reads as promising more than this.

Because of both, a stale expiry outlives its value. A later `set(k, v)`
without `ttl` is still read as absent, and that read drops `v` as well.
This lasts until `set_ttl` or a `set` with a `ttl` argument replaces the
expiry. `SetAfterExpiryStillAbsent`, `StaleExpiryHidesLaterValues` and
`ResetAfterExpiry` state this.

## Model

| member | source | states |
|---|---|---|
| `CacheSpec.Get` | fastapi/weather_app/services/cache.py:42-48 | a value is returned exactly when the key holds one and its expiry, if any, is after `now`, and it is the stored value; on expiry the value is dropped; the expiries never change; other keys are untouched |
| `CacheSpec.Set` | fastapi/weather_app/services/cache.py:50-53 | the key then holds the value; without `ttl` the expiries are unchanged; a `ttl` of 0 removes the key's expiry, any other sets it to `now + ttl`; other keys are untouched |
| `CacheSpec.SetTtl` | fastapi/weather_app/services/cache.py:55-59 | values are unchanged; None or 0 removes the key's expiry; any other `ttl` sets it to `now + ttl`; other keys are untouched |
| `CacheSpec.Delete` | fastapi/weather_app/services/cache.py:61-62 | the key holds no value afterwards; the expiries are unchanged; other keys are untouched; deleting a missing key changes nothing |
| `CacheSpec.PythonView` | fastapi/weather_app/services/cache.py:48 | a Python caller gets a value exactly when `get` found a stored value that is not None |
| `Cache.InMemoryCacheService.constructor` | fastapi/weather_app/services/cache.py:38-40 | a new cache has both dictionaries empty |
| `Cache.InMemoryCacheService.Get` | fastapi/weather_app/services/cache.py:42-48 | returns what `CacheSpec.Get` of the old dictionaries returns and leaves the dictionaries it describes |
| `Cache.InMemoryCacheService.Set` | fastapi/weather_app/services/cache.py:50-53 | the new dictionaries are `CacheSpec.Set` of the old ones |
| `Cache.InMemoryCacheService.SetTtl` | fastapi/weather_app/services/cache.py:55-59 | the new dictionaries are `CacheSpec.SetTtl` of the old ones |
| `Cache.InMemoryCacheService.Delete` | fastapi/weather_app/services/cache.py:61-62 | the new dictionaries are `CacheSpec.Delete` of the old ones |
| `CacheProperties.GetMissingKey` | fastapi/weather_app/services/cache.py:42-48 | `get` on a key in neither dictionary returns None and changes nothing |
| `CacheProperties.ExpiryIsInclusive` | fastapi/weather_app/services/cache.py:45-47 | at exactly its expiry time a key reads as absent and its value is dropped |
| `CacheProperties.SetThenGet` | fastapi/weather_app/services/cache.py:48-53 | for a key without expiry, `set(k, v)` then `get(k)` at any time returns `v` and changes nothing, for every value including one that stands for None |
| `CacheProperties.SetWithTtlThenGet` | fastapi/weather_app/services/cache.py:42-59 | `set(k, v, ttl)` with non-zero `ttl` at `t` records expiry `t + ttl`; `get` returns `v` before it, and None from it on, dropping the value |
| `CacheProperties.SetWithZeroTtlThenGet` | fastapi/weather_app/services/cache.py:50-57 | `set(k, v, 0)` removes any expiry, so `v` reads back at every time |
| `CacheProperties.SetWithoutTtlKeepsExpiry` | fastapi/weather_app/services/cache.py:50-53 | `set(k, v)` without `ttl` writes only `k`'s value and keeps every expiry as it was |
| `CacheProperties.ClearTtlNeverExpires` | fastapi/weather_app/services/cache.py:55-57 | `set_ttl(k, None)` and `set_ttl(k, 0)` remove the expiry and keep the values, change nothing when `k` had no expiry, and `get(k)` then never expires `k` |
| `CacheProperties.SetTtlThenGet` | fastapi/weather_app/services/cache.py:58-59 | `set_ttl(k, ttl)` with non-zero `ttl` at `t` writes expiry `t + ttl` even without a value; a held value reads back before it, and nothing reads from it on |
| `CacheProperties.DeleteThenGet` | fastapi/weather_app/services/cache.py:61-62 | `delete(k)` keeps the expiries, changes nothing for a missing key, and `get(k)` afterwards returns None |
| `CacheProperties.NoReadPastExpiry` | fastapi/weather_app/services/cache.py:43-47 | whenever `get` returns a value, the key holds it and has no expiry at or before `now` |
| `CacheProperties.SetAfterExpiryStillAbsent` | fastapi/weather_app/services/cache.py:42-62 | after `get` has dropped an expired value, `set(k, v)` without `ttl` stores `v` but `get(k)` still returns None at any time from the old expiry on |
| `CacheProperties.StoredNoneLooksMissing` | fastapi/weather_app/services/cache.py:48 | `get` finds a stored None as a value, yet in the Python caller's view it is the same as a deleted key |
| `CacheProperties.StepOnlyTouches` | fastapi/weather_app/services/cache.py:42-62 | every call leaves the value and the expiry of every other key as they were |
| `CacheProperties.RunOtherKeys` | fastapi/weather_app/services/cache.py:42-62 | any sequence of calls on other keys leaves a key's value and expiry as they were |
| `CacheProperties.RunKeepsExpiry` | fastapi/weather_app/services/cache.py:46-62 | across any sequence of `get`, `delete`, `set` without `ttl` and calls on other keys, a key's expiry stays as it was, present or absent |
| `CacheProperties.RunNeverArms` | fastapi/weather_app/services/cache.py:42-62 | a key without expiry gets none across any sequence of `get`, `delete`, `set` without `ttl` or with `ttl=0`, `set_ttl(k, None)`, `set_ttl(k, 0)` and calls on other keys |
| `CacheProperties.StaleExpiryHidesLaterValues` | fastapi/weather_app/services/cache.py:42-62 | once a key's expiry is at or before `now`, no such sequence of calls makes it readable at `now` again, whatever values it stores in between |
| `CacheProperties.PersistentKeyNeverExpires` | fastapi/weather_app/services/cache.py:42-62 | a key without expiry keeps none across any sequence of calls that never arms an expiry on it (`get`, `delete`, `set` without `ttl` or with `ttl=0`, `set_ttl(k, None)`, `set_ttl(k, 0)`, calls on other keys), so `get` returns whatever value it holds, at every time |
| `CacheScenarios.SetWithoutTtl` | fastapi/weather_app/tests/services/test_cache.py:16-37 | on a fresh cache, `set(k, v)` then `get(k)` returns `v` for any key and value |
| `CacheScenarios.GetNonexistentKey` | fastapi/weather_app/tests/services/test_cache.py:40-42 | a key never written reads as absent |
| `CacheScenarios.SetWithTtl` | fastapi/weather_app/tests/services/test_cache.py:45-50 | `set("key1", "value1", ttl=1)` reads back at once and is absent a second later |
| `CacheScenarios.SetThenSetTtl` | fastapi/weather_app/tests/services/test_cache.py:53-59 | `set` then `set_ttl(…, 1)` reads back at once and is absent a second later |
| `CacheScenarios.SetThenDelete` | fastapi/weather_app/tests/services/test_cache.py:62-66 | `set` then `delete` reads as absent |
| `CacheScenarios.ResetAfterExpiry` | fastapi/weather_app/services/cache.py:42-62 | once `ttl=1` has passed the key reads as absent, and a re-`set` without `ttl` still reads as absent; once `set_ttl(k, None)` has cleared the expiry, a re-`set` reads back |

## Left out

- Wall-clock time: `time.time()` returns a float. Here it is an integer `now`, passed to each operation. Expiry times are integers, and no floating-point arithmetic is modelled. So the model has neither the rounding of a large `ttl` in `time.time() + ttl` nor the OverflowError that sum raises when `ttl` is too large to convert to a float (cache.py:59); `now + ttl` is exact for every integer.
- The abstract base class `CacheService` (cache.py:7-24) is not modelled as a separate interface. `InMemoryCacheService` is its only implementation, and its four operations are modelled directly.
- The dependency factory `get_cache_service` (cache.py:27-29) is left out. It only constructs a cache, which the constructor already covers.
- Python's `ttl == 0` is also true for `False` and `0.0`. The model takes `ttl` as an `Option<int>`, the declared type.
- The thread-pool helper (services/thread.py) is concurrency glue and is left out. So are the weather-provider adapter over the external client (services/weather.py) and the HTTP routing (routers/, main.py). The cache has no lock, and no concurrency is modelled.
