// The query entry point as an object over the four layers (core/pipeline.py),
// proved against PipelineSpec, and the construction of index and store from
// records (benchmarks/bench_writes.py).
module Pipeline {
  import opened Types
  import opened KeyLists
  import opened Segmentation
  import opened StoreSpec
  import opened PipelineSpec
  import opened SecureStore
  import SmartIndex
  import Caches

  class SCADSPipeline {
    const index: SmartIndex.Index
    const cache: Caches.CacheRef
    const store: SecureChunkStore
    const regions: map<ChunkKey, Value>

    constructor (index: SmartIndex.Index, cache: Caches.CacheRef, store: SecureChunkStore,
                 regions: map<ChunkKey, Value>)
      ensures this.index == index && this.cache == cache && this.store == store && this.regions == regions
    {
      this.index := index;
      this.cache := cache;
      this.store := store;
      this.regions := regions;
    }

    ghost function CacheFrame(): set<object>
      reads match cache case Frames(f) => {f} case _ => {}
    {
      cache.Repr()
    }

    /** The cache is well formed and shares no object with the other layers. */
    ghost predicate Valid()
      reads CacheFrame(), match cache case Frames(f) => {f} case _ => {}
    {
      && cache.Valid() && Caches.Inv(cache.State())
      && index !in cache.Repr() && store !in cache.Repr()
      && store.access !in cache.Repr() && store.audit !in cache.Repr()
    }

    ghost function State(): System
      requires Valid()
      reads CacheFrame(), match cache case Frames(f) => {f} case _ => {}
      reads index, store, store.access, store.audit
    {
      System(store.cipher, index.index, regions, cache.State(), store.State())
    }

    method Query(role: string, key: ChunkKey, queryRegion: Value) returns (out: Outcome)
      requires Valid()
      modifies CacheFrame(), store`decrypts, store.audit
      ensures Valid()
      ensures (State(), out) == PipelineSpec.Query(old(State()), role, key, queryRegion)
    {
      var ids := index.Lookup(key);
      if ids == [] {
        return Returned([]);
      }
      out := Access(role, key, queryRegion);
    }

    /** Steps 2 to 4, for a key the index knows. */
    method Access(role: string, key: ChunkKey, queryRegion: Value) returns (out: Outcome)
      requires Valid() && SmartIndex.Ids(index.index, key) != []
      modifies CacheFrame(), store`decrypts, store.audit
      ensures Valid()
      ensures (State(), out) == PipelineSpec.Query(old(State()), role, key, queryRegion)
    {
      ghost var s := State();
      var hit := Track(key, queryRegion);
      var fetched := Fetch(role, key);
      out := Settle(key, hit, fetched);
      QueryComposes(s, role, key, queryRegion, State().store, fetched, State().cache, out);
    }

    /** Step 2: record the access. */
    method Track(key: ChunkKey, queryRegion: Value) returns (hit: bool)
      requires Valid()
      modifies CacheFrame()
      ensures Valid() && hit == Caches.Resident(old(cache.State()), key)
      ensures cache.Repr() == old(cache.Repr())
      ensures State() == old(State()).(cache := Caches.CacheGet(old(cache.State()), key, queryRegion))
    {
      Caches.GetStep(cache.State(), key, queryRegion);
      hit := cache.Get(key, queryRegion);
    }

    /** Step 3: the guarded fetch. */
    method Fetch(role: string, key: ChunkKey) returns (r: Fetched)
      requires Valid()
      modifies store`decrypts, store.audit
      ensures Valid() && cache.Repr() == old(cache.Repr())
      ensures (State().store, r) == StoreSpec.Fetch(store.cipher, old(store.State()), role, key)
      ensures State() == old(State()).(store := State().store)
    {
      r := store.Fetch(role, key);
    }

    /** Step 4: pass on a raise, fill the cache after a miss. */
    method Settle(key: ChunkKey, hit: bool, fetched: Fetched) returns (out: Outcome)
      requires Valid()
      modifies CacheFrame()
      ensures Valid()
      ensures (State().cache, out) ==
              PipelineSpec.Settle(old(cache.State()), key, Region(regions, key), hit, fetched)
      ensures State() == old(State()).(cache := State().cache)
    {
      if fetched.InvalidTag? {
        return RaisedInvalidTag;
      }
      if !hit {
        Caches.PutStep(cache.State(), key, Region(regions, key));
        var raised := cache.Put(key, Region(regions, key));
        if raised {
          return RaisedCacheFull;
        }
      }
      return Returned(fetched.records);
    }
  }

  /** Segment, index, and store every chunk under the next nonce; raises where
      the extractor does. */
  method BuildSystem(rs: seq<Record>, raw: RawExtractor, cipher: Cipher, nonces: nat -> nat, access: AccessControl)
    returns (raised: bool, index: SmartIndex.Index, store: SecureChunkStore)
    requires RoundTrips(cipher)
    ensures raised <==> !Accepts(raw, rs)
    ensures fresh(index) && fresh(store) && fresh(store.audit) && store.access == access && store.cipher == cipher
    ensures !raised ==> BuiltFrom(cipher, index.index, store.blobs, rs, KeyBy(raw))
    ensures !raised ==> forall i :: 0 <= i < |FirstKeys(rs, KeyBy(raw))| ==>
              Loaded(index.index, store, i, FirstKeys(rs, KeyBy(raw))[i], rs, KeyBy(raw), nonces)
    ensures store.audit.entries == [] && store.decrypts == []
  {
    index := new SmartIndex.Index();
    store := new SecureChunkStore(cipher, access, None);
    var order, chunks;
    raised, order, chunks := Segment(rs, raw);
    if raised {
      return;
    }
    ghost var ext := KeyBy(raw);
    FirstKeysAre(rs, ext);
    assert forall k :: k in order ==> k in Keys(order);
    index.Build(order, chunks);
    LoadStore(store, order, chunks, rs, ext, nonces);
  }

  /** The `i`-th chunk is indexed under its id `i` and stored under the `i`-th nonce. */
  ghost predicate Loaded(index: map<ChunkKey, seq<nat>>, store: SecureChunkStore, i: nat, k: ChunkKey,
                         rs: seq<Record>, ext: Extractor, nonces: nat -> nat)
    reads store
  {
    && k in index && index[k] == [i]
    && k in store.blobs && store.blobs[k] == Seal(store.cipher, nonces(i), Matching(rs, ext, k))
  }

  /** `store_records` for every chunk in order. */
  method LoadStore(store: SecureChunkStore, order: seq<ChunkKey>, chunks: map<ChunkKey, Chunk>,
                   ghost rs: seq<Record>, ghost ext: Extractor, nonces: nat -> nat)
    requires RoundTrips(store.cipher) && Holds(order, chunks, rs, ext) && store.blobs == map[]
    modifies store`blobs
    ensures store.blobs.Keys == Keys(order)
    ensures forall k :: k in store.blobs ==> Open(store.cipher, store.blobs[k]) == Records(Matching(rs, ext, k))
    ensures forall i :: 0 <= i < |order| ==>
              order[i] in store.blobs &&
              store.blobs[order[i]] == Seal(store.cipher, nonces(i), Matching(rs, ext, order[i]))
  {
    for i := 0 to |order|
      invariant store.blobs.Keys == Keys(order[..i])
      invariant forall k :: k in store.blobs ==>
                  Open(store.cipher, store.blobs[k]) == Records(Matching(rs, ext, k))
      invariant forall j :: 0 <= j < i ==>
                  order[j] in store.blobs &&
                  store.blobs[order[j]] == Seal(store.cipher, nonces(j), Matching(rs, ext, order[j]))
    {
      var k := order[i];
      assert order[..i + 1] == order[..i] + [k];
      OpenSealed(store.cipher, nonces(i), chunks[k].records);
      store.StoreRecords(k, chunks[k].records, nonces(i));
    }
    assert order[..|order|] == order;
  }
}
