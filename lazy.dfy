/**
 * The lazy carrier the server transform defines once per module as its
 * `wrapBoundArgs` helper (`src/server-transform.ts`, the
 * `_buildLazyWrapperHelper` template): `(thunk) => ({ get value() { ... } })`
 * with the cache kept in the closure. Reading `value` runs the thunk while the
 * cache is falsy and stores its result; a truthy cached result is returned
 * without calling the thunk again.
 */
module Lazy {
  import opened Common

  class LazyCarrier<V> {
    /** What the `n`-th call of the thunk returns (every call may build a new value). */
    const thunk: nat -> V
    /** JavaScript truthiness of a value. */
    const truthy: V -> bool

    /** The closure variable `cache`; `None` is its initial `undefined`. */
    var cache: Option<V>
    /** How many times the thunk has run. */
    var calls: nat

    /** `let cache = undefined`. */
    constructor (thunk: nat -> V, truthy: V -> bool)
      ensures this.thunk == thunk && this.truthy == truthy
      ensures cache == None && calls == 0
    {
      this.thunk := thunk;
      this.truthy := truthy;
      cache := None;
      calls := 0;
    }

    /** The cache holds a truthy value, so the thunk will not run again. */
    predicate Settled()
      reads this
    {
      cache.Some? && truthy(cache.value)
    }

    /** The `value` getter. */
    method Value() returns (v: V)
      modifies this`cache, this`calls
      ensures old(Settled()) ==> v == old(cache).value && cache == old(cache) && calls == old(calls)
      ensures !old(Settled()) ==> v == thunk(old(calls)) && cache == Some(v) && calls == old(calls) + 1
      ensures cache == Some(v)
      ensures Settled() <==> truthy(v)
    {
      if !Settled() {
        cache := Some(thunk(calls));
        calls := calls + 1;
      }
      v := cache.value;
    }

    /**
     * Two reads in a row: when the first read gives a truthy value the thunk
     * runs at most once and both reads see that value; a falsy one makes the
     * thunk run again on the second read.
     */
    method ValueTwice() returns (first: V, second: V)
      modifies this`cache, this`calls
      ensures truthy(first) ==> second == first && calls <= old(calls) + 1
      ensures !truthy(first) ==> calls == old(calls) + 2 && second == thunk(old(calls) + 1)
    {
      first := Value();
      second := Value();
    }
  }
}
