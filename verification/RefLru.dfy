// The reference LRU and the request loop of benchmarks/bench_baseline_cache.py.
module RefLru {
  import opened Types
  import opened KeyLists
  import opened LruStack

  class RefLRU {
    const capacity: nat
    var od: seq<ChunkKey>

    constructor (capacity: nat)
      ensures this.capacity == capacity && od == []
    {
      this.capacity := capacity;
      od := [];
    }

    method Get(key: ChunkKey) returns (hit: bool)
      modifies this`od
      ensures hit == (key in old(od))
      ensures od == if hit then Touch(old(od), key) else old(od)
    {
      if key in od {
        od := Del(od, key) + [key];
        return true;
      }
      return false;
    }

    method Put(key: ChunkKey)
      modifies this`od
      ensures od == LruRequest(old(od), key, capacity)
    {
      if key in od {
        od := Del(od, key) + [key];
        return;
      }
      od := od + [key];
      if |od| > capacity {
        od := od[1..];
      }
    }
  }

  /** Put the first `capacity` distinct keys of the queries. */
  method WarmUp(cache: RefLRU, queries: seq<ChunkKey>)
    requires cache.od == []
    modifies cache`od
    ensures cache.od == WarmContents(queries, cache.capacity)
  {
    var seen: seq<ChunkKey> := [];
    var i := 0;
    while i < |queries|
      invariant 0 <= i <= |queries|
      invariant seen == FirstSeen(queries[..i])
      invariant cache.od == seen[..Min(cache.capacity, |seen|)]
      invariant i == 0 || |seen| < cache.capacity
    {
      var key := queries[i];
      assert queries[..i + 1][..i] == queries[..i];
      if key !in seen {
        cache.Put(key);
        seen := seen + [key];
      }
      i := i + 1;
      if |seen| >= cache.capacity {
        break;
      }
    }
    WarmedUp(queries, i, cache.capacity);
  }

  /** Replay the queries, filling on a miss, and count the hits. */
  method Replay(cache: RefLRU, queries: seq<ChunkKey>) returns (hits: nat)
    modifies cache`od
    ensures cache.od == LruFrom(old(cache.od), queries, cache.capacity)
    ensures hits == HitsFrom(old(cache.od), queries, cache.capacity) <= |queries|
  {
    hits := 0;
    for j := 0 to |queries|
      invariant cache.od == LruFrom(old(cache.od), queries[..j], cache.capacity)
      invariant hits == HitsFrom(old(cache.od), queries[..j], cache.capacity) <= j
    {
      assert queries[..j + 1][..j] == queries[..j];
      var hit := cache.Get(queries[j]);
      if !hit {
        cache.Put(queries[j]);
      }
      hits := hits + if hit then 1 else 0;
    }
    assert queries[..|queries|] == queries;
  }

  /** Warm up, replay, report. */
  method RunAdapter(capacity: nat, queries: seq<ChunkKey>) returns (hits: nat, misses: nat)
    ensures hits == Hits(queries, capacity) + Min(capacity, |Recency(queries)|)
    ensures hits + misses == |queries|
  {
    var cache := new RefLRU(capacity);
    WarmUp(cache, queries);
    hits := Replay(cache, queries);
    DriverHits(queries, capacity);
    misses := |queries| - hits;
  }

  lemma WarmedUp(queries: seq<ChunkKey>, i: nat, c: nat)
    requires i <= |queries|
    requires i == |queries| || |FirstSeen(queries[..i])| >= c
    ensures
      var seen := FirstSeen(queries[..i]);
      seen[..Min(c, |seen|)] == WarmContents(queries, c)
  {
    FirstSeenPrefix(queries, i);
    assert queries[..|queries|] == queries;
  }
}
