// The query pipeline as a function on the whole system, and what it means over
// runs: queries equal the linear scan, the audit log misses nothing, and
// decryption follows the grants.
module PipelineSpec {
  import opened Types
  import opened KeyLists
  import opened Segmentation
  import opened StoreSpec
  import SmartIndex
  import SketchSpec
  import Caches

  datatype System = System(cipher: Cipher, index: map<ChunkKey, seq<nat>>, regions: map<ChunkKey, Value>,
                           cache: Caches.CacheState, store: Store)

  /** A query returns records or raises: InvalidTag from the cipher, or the
      cache's "all frames pinned". */
  datatype Outcome = Returned(records: seq<Record>) | RaisedInvalidTag | RaisedCacheFull

  function Region(regions: map<ChunkKey, Value>, k: ChunkKey): Value {
    if k in regions then regions[k] else Null
  }

  /** What follows the fetch: an InvalidTag is passed on, a miss is populated. */
  ghost function Settle(cache: Caches.CacheState, k: ChunkKey, region: Value, hit: bool, fetched: Fetched)
    : (Caches.CacheState, Outcome)
    requires Caches.Inv(cache)
  {
    match fetched
    case InvalidTag => (cache, RaisedInvalidTag)
    case Records(rs) =>
      if hit then (cache, Returned(rs))
      else
        var (cache', raised) := Caches.CachePut(cache, k, region);
        (cache', if raised then RaisedCacheFull else Returned(rs))
  }

  /** Index, cache access, fetch, populate on a miss. */
  ghost function Query(s: System, role: string, k: ChunkKey, region: Value): (System, Outcome)
    requires Caches.Inv(s.cache)
  {
    if SmartIndex.Ids(s.index, k) == [] then (s, Returned([]))
    else
      Caches.GetStep(s.cache, k, region);
      var hit := Caches.Resident(s.cache, k);
      var cache := Caches.CacheGet(s.cache, k, region);
      var (store, fetched) := Fetch(s.cipher, s.store, role, k);
      var (cache', outcome) := Settle(cache, k, Region(s.regions, k), hit, fetched);
      (s.(cache := cache', store := store), outcome)
  }

  /** A query of a known chunk from what its steps yield. */
  lemma QueryComposes(s: System, role: string, k: ChunkKey, region: Value,
                      store: Store, fetched: Fetched, cache': Caches.CacheState, outcome: Outcome)
    requires Caches.Inv(s.cache) && Caches.Inv(Caches.CacheGet(s.cache, k, region))
    requires SmartIndex.Ids(s.index, k) != []
    requires (store, fetched) == Fetch(s.cipher, s.store, role, k)
    requires (cache', outcome) == Settle(Caches.CacheGet(s.cache, k, region), k, Region(s.regions, k),
                                         Caches.Resident(s.cache, k), fetched)
    ensures Query(s, role, k, region) == (s.(cache := cache', store := store), outcome)
  {
  }

  /******* Runs *******/

  datatype Call =
    | Ask(role: string, k: ChunkKey, region: Value)
    | GrantCall(role: string, key: Option<ChunkKey>)
    | RevokeCall(role: string)
    | PinCall(k: ChunkKey)
    | UnpinCall(k: ChunkKey)

  ghost function Exec(s: System, call: Call): (r: System)
    requires Caches.Inv(s.cache)
    ensures Caches.Inv(r.cache)
  {
    match call
    case Ask(role, k, region) =>
      QueryKeepsCache(s, role, k, region);
      Query(s, role, k, region).0
    case GrantCall(role, key) => s.(store := s.store.(policy := GrantTo(s.store.policy, role, key)))
    case RevokeCall(role) => s.(store := s.store.(policy := Revoke(s.store.policy, role)))
    case PinCall(k) => s.(cache := Caches.Pinned(s.cache, s.cache.pinned + {k}))
    case UnpinCall(k) => s.(cache := Caches.Pinned(s.cache, s.cache.pinned - {k}))
  }

  ghost function Run(s: System, calls: seq<Call>): (r: System)
    requires Caches.Inv(s.cache)
    ensures Caches.Inv(r.cache)
  {
    if calls == [] then s else Exec(Run(s, calls[..|calls| - 1]), calls[|calls| - 1])
  }

  lemma QueryKeepsCache(s: System, role: string, k: ChunkKey, region: Value)
    requires Caches.Inv(s.cache)
    ensures Caches.Inv(Query(s, role, k, region).0.cache)
  {
    Caches.GetStep(s.cache, k, region);
    Caches.PutStep(Caches.CacheGet(s.cache, k, region), k, Region(s.regions, k));
  }

  /******* The store does not see the cache *******/

  function StoreAfter(c: Cipher, index: map<ChunkKey, seq<nat>>, store: Store, call: Call): Store {
    match call
    case Ask(role, k, _) => if SmartIndex.Ids(index, k) == [] then store else Fetch(c, store, role, k).0
    case GrantCall(role, key) => store.(policy := GrantTo(store.policy, role, key))
    case RevokeCall(role) => store.(policy := Revoke(store.policy, role))
    case _ => store
  }

  function StoreRun(c: Cipher, index: map<ChunkKey, seq<nat>>, store: Store, calls: seq<Call>): Store {
    if calls == [] then store
    else StoreAfter(c, index, StoreRun(c, index, store, calls[..|calls| - 1]), calls[|calls| - 1])
  }

  ghost predicate SameBut(s: System, r: System, store: Store) {
    r.cipher == s.cipher && r.index == s.index && r.regions == s.regions && r.store == store
  }

  lemma ExecStore(s: System, call: Call)
    requires Caches.Inv(s.cache)
    ensures SameBut(s, Exec(s, call), StoreAfter(s.cipher, s.index, s.store, call))
  {
  }

  /** Whatever the cache policy, its state and its raises, the store evolves the
      same way; index and cipher stay. */
  lemma {:induction false} RunStore(s: System, calls: seq<Call>)
    requires Caches.Inv(s.cache)
    ensures SameBut(s, Run(s, calls), StoreRun(s.cipher, s.index, s.store, calls))
  {
    if calls != [] {
      RunStore(s, calls[..|calls| - 1]);
      ExecStore(Run(s, calls[..|calls| - 1]), calls[|calls| - 1]);
    }
  }

  lemma {:induction false} StoreKeepsBlobs(c: Cipher, index: map<ChunkKey, seq<nat>>, store: Store, calls: seq<Call>)
    ensures StoreRun(c, index, store, calls).blobs == store.blobs
    ensures StoreRun(c, index, store, calls).policy == PolicyAfter(store.policy, calls)
  {
    if calls != [] {
      StoreKeepsBlobs(c, index, store, calls[..|calls| - 1]);
    }
  }

  /******* The cache sees the policy's own run *******/

  /** The chunk is stored, the role allowed, and the blob does not decrypt. */
  ghost predicate BadTag(s: System, calls: seq<Call>, role: string, k: ChunkKey) {
    && Allowed(PolicyAfter(s.store.policy, calls), role, k)
    && k in s.store.blobs && s.cipher.decrypt(s.store.blobs[k]).None?
  }

  /** The cache calls of one query: none for an unknown chunk, else a get, and
      after a miss that was not a bad tag a put with the chunk's region. */
  function AskOps(index: map<ChunkKey, seq<nat>>, regions: map<ChunkKey, Value>, hit: bool, bad: bool,
                  k: ChunkKey, region: Value): seq<Op>
  {
    if k !in index || index[k] == [] then []
    else if hit || bad then [DoGet(k, region)]
    else [DoGet(k, region), DoPut(k, if k in regions then regions[k] else Null)]
  }

  /** The cache calls that `calls` make. */
  ghost function CacheOps(s: System, calls: seq<Call>): seq<Op>
    requires Caches.Inv(s.cache)
  {
    if calls == [] then []
    else
      var init := calls[..|calls| - 1];
      var before := CacheOps(s, init);
      match calls[|calls| - 1]
      case Ask(role, k, region) =>
        var hit := Caches.Resident(Caches.PolicyRun(s.cache, before), k);
        before + AskOps(s.index, s.regions, hit, BadTag(s, init, role, k), k, region)
      case PinCall(k) => before + [DoPin(k)]
      case UnpinCall(k) => before + [DoUnpin(k)]
      case _ => before
  }

  /** What one query does to the cache. */
  lemma QueryCache(s: System, role: string, k: ChunkKey, region: Value)
    requires Caches.Inv(s.cache)
    ensures Caches.Inv(Caches.CacheGet(s.cache, k, region))
    ensures
      var cache, get := Query(s, role, k, region).0.cache, Caches.CacheGet(s.cache, k, region);
      cache ==
      if k !in s.index || s.index[k] == [] then s.cache
      else if Caches.Resident(s.cache, k) || BadTag(s, [], role, k) then get
      else Caches.CachePut(get, k, if k in s.regions then s.regions[k] else Null).0
  {
    Caches.GetStep(s.cache, k, region);
  }

  /** Over any calls, raising queries included, the pipeline's cache is the
      policy's own run on these cache calls. */
  lemma {:induction false} CacheIsPolicyRun(s: System, calls: seq<Call>)
    requires Caches.Inv(s.cache)
    ensures Run(s, calls).cache == Caches.PolicyRun(s.cache, CacheOps(s, calls))
  {
    if calls != [] {
      var init, call := calls[..|calls| - 1], calls[|calls| - 1];
      CacheIsPolicyRun(s, init);
      RunStore(s, init);
      StoreKeepsBlobs(s.cipher, s.index, s.store, init);
      ExecCache(s, init, Run(s, init), call);
    }
  }

  lemma ExecCache(s: System, init: seq<Call>, now: System, call: Call)
    requires Caches.Inv(s.cache) && Caches.Inv(now.cache)
    requires now.cache == Caches.PolicyRun(s.cache, CacheOps(s, init))
    requires now.cipher == s.cipher && now.index == s.index && now.regions == s.regions
    requires now.store.blobs == s.store.blobs && now.store.policy == PolicyAfter(s.store.policy, init)
    ensures Exec(now, call).cache == Caches.PolicyRun(s.cache, CacheOps(s, init + [call]))
  {
    assert (init + [call])[..|init|] == init;
    match call
    case Ask(role, k, region) => AskCache(s.cache, CacheOps(s, init), now, role, k, region);
    case PinCall(k) => Caches.PolicyRunSnoc(s.cache, CacheOps(s, init), DoPin(k));
    case UnpinCall(k) => Caches.PolicyRunSnoc(s.cache, CacheOps(s, init), DoUnpin(k));
    case GrantCall(_, _) =>
    case RevokeCall(_) =>
  }

  lemma AskCache(c: Caches.CacheState, ops: seq<Op>, now: System, role: string, k: ChunkKey, region: Value)
    requires Caches.Inv(c) && now.cache == Caches.PolicyRun(c, ops)
    ensures
      var asked := AskOps(now.index, now.regions, Caches.Resident(now.cache, k), BadTag(now, [], role, k), k, region);
      Query(now, role, k, region).0.cache == Caches.PolicyRun(c, ops + asked)
  {
    QueryCache(now, role, k, region);
    assert ops + [] == ops;
    GetThenPut(c, ops, k, region, if k in now.regions then now.regions[k] else Null);
  }

  lemma GetThenPut(c: Caches.CacheState, ops: seq<Op>, k: ChunkKey, region: Value, own: Value)
    requires Caches.Inv(c)
    ensures
      var get := Caches.CacheGet(Caches.PolicyRun(c, ops), k, region);
      && Caches.Inv(get)
      && Caches.PolicyRun(c, ops + [DoGet(k, region)]) == get
      && Caches.PolicyRun(c, ops + [DoGet(k, region), DoPut(k, own)]) == Caches.CachePut(get, k, own).0
  {
    Caches.GetStep(Caches.PolicyRun(c, ops), k, region);
    Caches.PolicyRunSnoc(c, ops, DoGet(k, region));
    Caches.PolicyRunSnoc(c, ops + [DoGet(k, region)], DoPut(k, own));
    assert ops + [DoGet(k, region)] + [DoPut(k, own)] == ops + [DoGet(k, region), DoPut(k, own)];
  }

  /** An allowed query of a chunk whose blob was tampered with raises InvalidTag;
      the attempt is logged, and nothing is filled in. */
  lemma TamperedRaises(s: System, role: string, k: ChunkKey, region: Value)
    requires Caches.Inv(s.cache) && k in s.index && s.index[k] != [] && BadTag(s, [], role, k)
    ensures
      var (r, outcome) := Query(s, role, k, region);
      && outcome == RaisedInvalidTag
      && r.store.entries == s.store.entries + [AuditEntry(role, k, "fetch", true)]
      && forall x :: Caches.Resident(r.cache, x) <==> Caches.Resident(s.cache, x)
  {
    Caches.GetStep(s.cache, k, region);
  }

  /** A query of a resident known chunk is recorded, whatever it answers. */
  lemma QueryRecorded(s: System, role: string, k: ChunkKey, region: Value)
    requires Caches.Inv(s.cache) && k in s.index && s.index[k] != [] && Caches.Resident(s.cache, k)
    ensures s.cache.FrameState? ==>
              var r, f := Query(s, role, k, region).0.cache, s.cache.frames.frame[k];
              && r.FrameState? && k in r.frames.frame
              && r.frames.frame[k].count == f.count + 1 && r.frames.frame[k].lastQuery == region
              && !r.frames.frame[k].grace && r.frames.frame[k].recency == r.frames.clock == s.cache.frames.clock + 1
    ensures s.cache.ArcState? ==>
              var r := Query(s, role, k, region).0.cache;
              r.ArcState? && r.arc.t2 != [] && r.arc.t2[|r.arc.t2| - 1] == k
    ensures s.cache.TinyState? ==>
              var r := Query(s, role, k, region).0.cache;
              && r.TinyState? && r.tiny.main != [] && r.tiny.main[|r.tiny.main| - 1] == k
              && r.tiny.table == SketchSpec.Increment(s.cache.layout, s.cache.tiny.table, k)
  {
    QueryCache(s, role, k, region);
    Caches.HitRecorded(s.cache, k, region);
  }

  /******* Queries equal the linear scan *******/

  /** Index and blobs come from the chunks of `rs`. */
  ghost predicate BuiltFrom(c: Cipher, index: map<ChunkKey, seq<nat>>, blobs: map<ChunkKey, Bytes>,
                            rs: seq<Record>, ext: Extractor)
  {
    && index.Keys == Keys(FirstKeys(rs, ext)) == blobs.Keys
    && (forall k :: k in index ==> index[k] != [])
    && (forall k :: k in blobs ==> Open(c, blobs[k]) == Records(Matching(rs, ext, k)))
  }

  ghost predicate Built(s: System, rs: seq<Record>, ext: Extractor) {
    Caches.Inv(s.cache) && BuiltFrom(s.cipher, s.index, s.store.blobs, rs, ext)
  }

  lemma RunKeepsBuilt(s: System, calls: seq<Call>, rs: seq<Record>, ext: Extractor)
    requires Built(s, rs, ext)
    ensures Built(Run(s, calls), rs, ext)
  {
    RunStore(s, calls);
    StoreKeepsBlobs(s.cipher, s.index, s.store, calls);
  }

  /** No put can evict: every resident pinned, no room, and the key absent. */
  ghost predicate Stuck(c: Caches.CacheState, k: ChunkKey) {
    !Caches.Resident(c, k) && Caches.Full(c) && forall x :: Caches.Resident(c, x) ==> x in c.pinned
  }

  lemma QueryOnBuilt(s: System, role: string, k: ChunkKey, region: Value, rs: seq<Record>, ext: Extractor)
    requires Built(s, rs, ext)
    ensures
      Query(s, role, k, region).1 ==
      if Matching(rs, ext, k) != [] && Stuck(s.cache, k) then RaisedCacheFull
      else Returned(if Allowed(s.store.policy, role, k) then Matching(rs, ext, k) else [])
  {
    FirstKeysAre(rs, ext);
    assert k in s.index <==> k in Keys(FirstKeys(rs, ext));
    Caches.GetStep(s.cache, k, region);
    Caches.PutStep(Caches.CacheGet(s.cache, k, region), k, Region(s.regions, k));
  }

  /** End to end: after any calls, a query that does not raise returns exactly
      the matching records in original order if the role is allowed, and nothing
      otherwise; it raises exactly when the chunk exists and the cache is stuck. */
  lemma QueryIsLinearScan(s: System, calls: seq<Call>, role: string, k: ChunkKey, region: Value,
                          rs: seq<Record>, ext: Extractor)
    requires Built(s, rs, ext)
    ensures
      var now := Run(s, calls);
      Query(now, role, k, region).1 ==
      if Matching(rs, ext, k) != [] && Stuck(now.cache, k) then RaisedCacheFull
      else Returned(if Allowed(now.store.policy, role, k) then Matching(rs, ext, k) else [])
  {
    RunKeepsBuilt(s, calls, rs, ext);
    QueryOnBuilt(Run(s, calls), role, k, region, rs, ext);
  }

  /** A query of an unknown chunk leaves the cache alone. A query of a known one
      that returns leaves the chunk resident, so that the next is a hit, under
      every policy but TinyLFU, whose door may refuse it. */
  lemma QueryFillsCache(s: System, role: string, k: ChunkKey, region: Value)
    requires Caches.Inv(s.cache)
    ensures SmartIndex.Ids(s.index, k) == [] ==> Query(s, role, k, region) == (s, Returned([]))
    ensures
      var (r, outcome) := Query(s, role, k, region);
      SmartIndex.Ids(s.index, k) != [] && outcome.Returned? && !s.cache.TinyState? ==> Caches.Resident(r.cache, k)
  {
    var cache := Caches.CacheGet(s.cache, k, region);
    Caches.GetStep(s.cache, k, region);
    Caches.PutAdmits(cache, k, Region(s.regions, k));
  }

  /******* The audit log and the decrypts *******/

  /** The policy after the calls: only grants and revokes move it. */
  function PolicyAfter(p: Policy, calls: seq<Call>): Policy {
    if calls == [] then p
    else
      var before := PolicyAfter(p, calls[..|calls| - 1]);
      match calls[|calls| - 1]
      case GrantCall(role, key) => GrantTo(before, role, key)
      case RevokeCall(role) => Revoke(before, role)
      case _ => before
  }

  /** What one call adds to the log: a query that hits the index leaves one
      entry, with the decision in force. */
  function Entry(p: Policy, index: map<ChunkKey, seq<nat>>, call: Call): seq<AuditEntry> {
    match call
    case Ask(role, k, _) =>
      if SmartIndex.Ids(index, k) == [] then [] else [AuditEntry(role, k, "fetch", Allowed(p, role, k))]
    case _ => []
  }

  function Trail(p: Policy, index: map<ChunkKey, seq<nat>>, calls: seq<Call>): seq<AuditEntry> {
    if calls == [] then []
    else
      var before := calls[..|calls| - 1];
      Trail(p, index, before) + Entry(PolicyAfter(p, before), index, calls[|calls| - 1])
  }

  /** The keys of the granted entries whose chunk is stored. */
  function GrantedKeys(entries: seq<AuditEntry>, stored: set<ChunkKey>): seq<ChunkKey> {
    if entries == [] then []
    else
      var e := entries[|entries| - 1];
      GrantedKeys(entries[..|entries| - 1], stored) + if e.granted && e.key in stored then [e.key] else []
  }

  lemma {:induction false} GrantedKeysConcat(a: seq<AuditEntry>, b: seq<AuditEntry>, stored: set<ChunkKey>)
    ensures GrantedKeys(a + b, stored) == GrantedKeys(a, stored) + GrantedKeys(b, stored)
  {
    if b == [] {
      assert a + b == a;
    } else {
      var n := |b| - 1;
      GrantedKeysConcat(a, b[..n], stored);
      assert (a + b)[..|a + b| - 1] == a + b[..n];
    }
  }

  /** One call adds its entry, and a decrypt if that entry is granted and stored. */
  lemma StoreStep(c: Cipher, index: map<ChunkKey, seq<nat>>, store: Store, call: Call)
    ensures
      var r, e := StoreAfter(c, index, store, call), Entry(store.policy, index, call);
      r.entries == store.entries + e && r.decrypts == store.decrypts + GrantedKeys(e, store.blobs.Keys)
  {
  }

  lemma {:induction false} StoreEntries(c: Cipher, index: map<ChunkKey, seq<nat>>, store: Store, calls: seq<Call>)
    ensures StoreRun(c, index, store, calls).entries == store.entries + Trail(store.policy, index, calls)
  {
    if calls != [] {
      var before, call := calls[..|calls| - 1], calls[|calls| - 1];
      StoreEntries(c, index, store, before);
      StoreKeepsBlobs(c, index, store, before);
      StoreStep(c, index, StoreRun(c, index, store, before), call);
    }
  }

  lemma {:induction false} StoreDecrypts(c: Cipher, index: map<ChunkKey, seq<nat>>, store: Store, calls: seq<Call>)
    ensures StoreRun(c, index, store, calls).decrypts ==
            store.decrypts + GrantedKeys(Trail(store.policy, index, calls), store.blobs.Keys)
  {
    if calls != [] {
      var before, call := calls[..|calls| - 1], calls[|calls| - 1];
      StoreDecrypts(c, index, store, before);
      StoreKeepsBlobs(c, index, store, before);
      DecryptStep(c, index, StoreRun(c, index, store, before), call,
                  store.decrypts, Trail(store.policy, index, before));
    }
  }

  lemma DecryptStep(c: Cipher, index: map<ChunkKey, seq<nat>>, s: Store, call: Call,
                    decrypts: seq<ChunkKey>, trail: seq<AuditEntry>)
    requires s.decrypts == decrypts + GrantedKeys(trail, s.blobs.Keys)
    ensures StoreAfter(c, index, s, call).decrypts ==
            decrypts + GrantedKeys(trail + Entry(s.policy, index, call), s.blobs.Keys)
  {
    StoreStep(c, index, s, call);
    GrantedKeysConcat(trail, Entry(s.policy, index, call), s.blobs.Keys);
  }

  /** Over any calls, raising queries included, the log grows by exactly the
      trail, and decrypt is called once for each granted entry whose chunk is
      stored: never on a denial. */
  lemma AuditIsComplete(s: System, calls: seq<Call>)
    requires Caches.Inv(s.cache)
    ensures
      var r, trail := Run(s, calls), Trail(s.store.policy, s.index, calls);
      && r.store.entries == s.store.entries + trail
      && r.store.decrypts == s.store.decrypts + GrantedKeys(trail, s.store.blobs.Keys)
  {
    RunStore(s, calls);
    StoreEntries(s.cipher, s.index, s.store, calls);
    StoreDecrypts(s.cipher, s.index, s.store, calls);
  }
}
