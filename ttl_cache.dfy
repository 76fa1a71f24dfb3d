/**
 * The in-memory cache of the accident service (dm-project-back/src/accident/accident.service.ts):
 * a map from key to (data, timestamp, ttl) whose entries are evicted lazily, when a read finds
 * them older than their time to live. These functions say what one read or write does to the
 * map; the service class applies them to its `cache` field.
 */
module TtlCache {
  import opened Wrappers

  /** The default time to live, five minutes in milliseconds. */
  const DefaultTtl: int := 5 * 60 * 1000

  datatype Entry<V> = Entry(data: V, timestamp: int, ttl: int)

  /** An entry is served while no more than `ttl` milliseconds have passed since it was stored. */
  predicate Live<V>(e: Entry<V>, now: int) {
    now - e.timestamp <= e.ttl
  }

  /** What `getCached(key)` returns: the data of a live entry, otherwise nothing. */
  function Lookup<K(!new), V>(cache: map<K, Entry<V>>, key: K, now: int): (r: Option<V>)
    ensures r.Some? <==> key in cache && Live(cache[key], now)
    ensures r.Some? ==> r.value == cache[key].data
  {
    if key in cache && Live(cache[key], now) then Some(cache[key].data) else None
  }

  /** The map after `getCached(key)`: the entry of `key` is deleted when it has expired. */
  function AfterLookup<K(!new), V>(cache: map<K, Entry<V>>, key: K, now: int): (r: map<K, Entry<V>>)
    ensures forall k :: k in r <==> k in cache && (k == key ==> Live(cache[k], now))
    ensures forall k :: k in r ==> r[k] == cache[k]
  {
    if key in cache && !Live(cache[key], now) then cache - {key} else cache
  }

  /** The map after `setCache(key, data, ttl)` at time `now`. */
  function Put<K(!new), V>(cache: map<K, Entry<V>>, key: K, data: V, now: int, ttl: int): (r: map<K, Entry<V>>)
    ensures key in r && r[key] == Entry(data, now, ttl)
    ensures forall k :: k != key ==> (k in r <==> k in cache)
    ensures forall k :: k != key && k in r ==> r[k] == cache[k]
  {
    cache[key := Entry(data, now, ttl)]
  }

  /** A value just stored is read back for exactly `ttl` milliseconds; other keys read as before. */
  lemma LookupPut<K(!new), V>(cache: map<K, Entry<V>>, key: K, data: V, stored: int, ttl: int, now: int, k: K)
    ensures Lookup(Put(cache, key, data, stored, ttl), k, now)
      == if k == key then (if now - stored <= ttl then Some(data) else None) else Lookup(cache, k, now)
  {
  }

  /** A read never changes what any key reads as at the same time. */
  lemma LookupAfterLookup<K(!new), V>(cache: map<K, Entry<V>>, key: K, now: int, k: K)
    ensures Lookup(AfterLookup(cache, key, now), k, now) == Lookup(cache, k, now)
  {
  }

  /** A read that misses an existing key is exactly the one that deletes it. */
  lemma EvictionIsMiss<K(!new), V>(cache: map<K, Entry<V>>, key: K, now: int)
    requires key in cache
    ensures key !in AfterLookup(cache, key, now) <==> Lookup(cache, key, now).None?
  {
  }

  /** One call on the cache: a `getCached(key)` or a `setCache(key, data, ttl)`, at time `at`. */
  datatype CacheOp<K, V> = Get(key: K, at: int) | Set(key: K, data: V, at: int, ttl: int)

  /** The map after the calls, in order. */
  function Replay<K(!new), V>(cache: map<K, Entry<V>>, ops: seq<CacheOp<K, V>>): map<K, Entry<V>>
    decreases |ops|
  {
    if ops == [] then cache
    else
      var next := match ops[0]
        case Get(k, at) => AfterLookup(cache, k, at)
        case Set(k, data, at, ttl) => Put(cache, k, data, at, ttl);
      Replay(next, ops[1..])
  }

  /**
   * Expiry is final: a key that misses at `now` keeps missing at every later time, whatever
   * reads of any key and writes of other keys happen in between.
   */
  lemma {:induction false} MissStaysMiss<K(!new), V>(cache: map<K, Entry<V>>, key: K, now: int,
                                                     ops: seq<CacheOp<K, V>>, later: int)
    requires Lookup(cache, key, now).None? && now <= later
    requires forall i :: 0 <= i < |ops| && ops[i].Set? ==> ops[i].key != key
    ensures Lookup(Replay(cache, ops), key, later).None?
    decreases |ops|
  {
    if ops != [] {
      var next := match ops[0]
        case Get(k, at) => AfterLookup(cache, k, at)
        case Set(k, data, at, ttl) => Put(cache, k, data, at, ttl);
      assert Lookup(next, key, now).None?;
      forall i | 0 <= i < |ops[1..]| && ops[1..][i].Set?
        ensures ops[1..][i].key != key
      {
        assert ops[1..][i] == ops[i + 1];
      }
      MissStaysMiss(next, key, now, ops[1..], later);
    }
  }
}
