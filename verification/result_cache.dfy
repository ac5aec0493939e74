/**
 The result cache (`cache_results` and `check_cache`).

 Entries are keyed by the string `user_id + ":" + query` and live for 3600
 time units after they are written. The key-value server's own clock is
 replaced by an explicit `now` argument; an entry is visible while `now` is
 before its deadline.
 */
module ResultCache {
  import opened Wrappers

  /** Lifetime of an entry, in seconds (`ex=3600`). */
  const Ttl: int := 3600

  /** A cached payload and the instant from which it is treated as absent. */
  datatype Entry<V> = Entry(value: V, deadline: int)

  /** The cache key `f"{user_id}:{query}"`. */
  function Key(user: string, query: string): (k: string)
    ensures |k| == |user| + 1 + |query|
    ensures k[..|user|] == user && k[|user|] == ':' && k[|user| + 1..] == query
  {
    user + ":" + query
  }

  /** `cache_results(user_id, query, results)` at time `now`. */
  function CacheResults<V>(cache: map<string, Entry<V>>, user: string, query: string, results: V, now: int)
    : (r: map<string, Entry<V>>)
    ensures Key(user, query) in r && r[Key(user, query)] == Entry(results, now + Ttl)
    ensures r.Keys == cache.Keys + {Key(user, query)}
    ensures forall k :: k in cache && k != Key(user, query) ==> r[k] == cache[k]
  {
    cache[Key(user, query) := Entry(results, now + Ttl)]
  }

  /** `check_cache(user_id, query)` at time `now`. */
  function CheckCache<V>(cache: map<string, Entry<V>>, user: string, query: string, now: int): (r: Option<V>)
    ensures r.Some? <==> Key(user, query) in cache && now < cache[Key(user, query)].deadline
    ensures r.Some? ==> r.value == cache[Key(user, query)].value
  {
    var k := Key(user, query);
    if k in cache && now < cache[k].deadline then Some(cache[k].value) else None
  }

  /** A write is read back unchanged by any lookup before its deadline. */
  lemma CacheRoundTrip<V>(cache: map<string, Entry<V>>, user: string, query: string, v: V, t: int, t': int)
    requires t' < t + Ttl
    ensures CheckCache(CacheResults(cache, user, query, v, t), user, query, t') == Some(v)
  {
  }

  /** From its deadline on, a write is no longer visible. */
  lemma CacheExpires<V>(cache: map<string, Entry<V>>, user: string, query: string, v: V, t: int, t': int)
    requires t' >= t + Ttl
    ensures CheckCache(CacheResults(cache, user, query, v, t), user, query, t') == None
  {
  }

  /** A key never written is a miss. */
  lemma NeverWrittenMisses<V>(cache: map<string, Entry<V>>, user: string, query: string, now: int)
    requires Key(user, query) !in cache
    ensures CheckCache(cache, user, query, now) == None
  {
  }

  /** A second write to the same key replaces the value and restarts the lifetime. */
  lemma RewriteOverwrites<V>(cache: map<string, Entry<V>>, user: string, query: string,
                              v1: V, t1: int, v2: V, t2: int)
    ensures CacheResults(CacheResults(cache, user, query, v1, t1), user, query, v2, t2)
            == CacheResults(cache, user, query, v2, t2)
  {
  }

  /** A write leaves every lookup under a different key as it was. */
  lemma WriteIsolated<V>(cache: map<string, Entry<V>>, user: string, query: string, v: V, t: int,
                         user': string, query': string, now: int)
    requires Key(user', query') != Key(user, query)
    ensures CheckCache(CacheResults(cache, user, query, v, t), user', query', now) == CheckCache(cache, user', query', now)
  {
  }

  /**
   The key is not injective: user "a:" asking "b" and user "a" asking ":b"
   share an entry, so one reads the other's results.
   */
  lemma KeysCollide<V>(cache: map<string, Entry<V>>, v: V, t: int)
    ensures Key("a:", "b") == Key("a", ":b")
    ensures CheckCache(CacheResults(cache, "a:", "b", v, t), "a", ":b", t) == Some(v)
  {
    assert Key("a:", "b") == "a::b" == Key("a", ":b");
  }

  /** Among user ids without a colon, the key determines both the user and the query. */
  lemma KeyInjectiveWithoutColon(u1: string, q1: string, u2: string, q2: string)
    requires ':' !in u1 && ':' !in u2
    requires Key(u1, q1) == Key(u2, q2)
    ensures u1 == u2 && q1 == q2
  {
  }
}
