// Queries and writes interleaved: what the two write paths do to the audit
// promise and to the query theorem.
module WriteRuns {
  import opened Types
  import opened KeyLists
  import opened Segmentation
  import opened StoreSpec
  import opened PipelineSpec
  import opened Writes
  import SmartIndex
  import Caches

  datatype Action = Called(call: Call) | Wrote(w: Write)

  /** Writes pick their chunks among the stored ones. */
  ghost predicate OnStored(acts: seq<Action>, stored: set<ChunkKey>) {
    forall a :: a in acts && a.Wrote? ==> Targets(a.w, stored)
  }

  function StoreAct(c: Cipher, index: map<ChunkKey, seq<nat>>, store: Store, a: Action): (r: Store)
    requires a.Wrote? ==> Targets(a.w, store.blobs.Keys)
    ensures r.blobs.Keys == store.blobs.Keys
  {
    match a
    case Called(call) => StoreAfter(c, index, store, call)
    case Wrote(w) => WriteStep(c, store, w)
  }

  ghost function StoreMix(c: Cipher, index: map<ChunkKey, seq<nat>>, store: Store, acts: seq<Action>): (r: Store)
    requires OnStored(acts, store.blobs.Keys)
    ensures r.blobs.Keys == store.blobs.Keys
  {
    if acts == [] then store
    else
      assert acts[|acts| - 1] in acts;
      StoreAct(c, index, StoreMix(c, index, store, acts[..|acts| - 1]), acts[|acts| - 1])
  }

  ghost function Act(s: System, a: Action): (r: System)
    requires Caches.Inv(s.cache) && (a.Wrote? ==> Targets(a.w, s.store.blobs.Keys))
    ensures Caches.Inv(r.cache)
    ensures SameBut(s, r, StoreAct(s.cipher, s.index, s.store, a))
  {
    match a
    case Called(call) =>
      ExecStore(s, call);
      Exec(s, call)
    case Wrote(w) => s.(store := WriteStep(s.cipher, s.store, w))
  }

  /** A run of calls and writes. */
  ghost function Mixed(s: System, acts: seq<Action>): (r: System)
    requires Caches.Inv(s.cache) && OnStored(acts, s.store.blobs.Keys)
    ensures Caches.Inv(r.cache)
    ensures SameBut(s, r, StoreMix(s.cipher, s.index, s.store, acts))
  {
    if acts == [] then s
    else
      assert acts[|acts| - 1] in acts;
      Act(Mixed(s, acts[..|acts| - 1]), acts[|acts| - 1])
  }

  /******* The audit promise *******/

  function CallsOf(acts: seq<Action>): seq<Call> {
    if acts == [] then []
    else
      var before, a := CallsOf(acts[..|acts| - 1]), acts[|acts| - 1];
      if a.Called? then before + [a.call] else before
  }

  function WritesOf(acts: seq<Action>): seq<Write> {
    if acts == [] then []
    else
      var before, a := WritesOf(acts[..|acts| - 1]), acts[|acts| - 1];
      if a.Wrote? then before + [a.w] else before
  }

  lemma {:induction false} NoWrites(acts: seq<Action>)
    ensures WritesOf(acts) == [] <==> forall a :: a in acts ==> a.Called?
  {
    if acts != [] {
      var n := |acts| - 1;
      NoWrites(acts[..n]);
      assert acts[n].Wrote? ==> |WritesOf(acts)| == |WritesOf(acts[..n])| + 1;
      assert acts[n] in acts;
      assert forall a :: a in acts <==> a in acts[..n] || a == acts[n] by {
        assert acts == acts[..n] + [acts[n]];
      }
    }
  }

  lemma MixSnoc(c: Cipher, index: map<ChunkKey, seq<nat>>, s: Store, before: seq<Action>, a: Action)
    requires OnStored(before + [a], s.blobs.Keys)
    ensures OnStored(before, s.blobs.Keys) && (a.Wrote? ==> Targets(a.w, s.blobs.Keys))
    ensures StoreMix(c, index, s, before + [a]) == StoreAct(c, index, StoreMix(c, index, s, before), a)
  {
    assert (before + [a])[..|before|] == before && (before + [a])[|before|] == a;
    assert forall b :: b in before ==> b in before + [a];
    assert a in before + [a];
  }

  lemma ListsSnoc(before: seq<Action>, a: Action)
    ensures CallsOf(before + [a]) == if a.Called? then CallsOf(before) + [a.call] else CallsOf(before)
    ensures WritesOf(before + [a]) == if a.Wrote? then WritesOf(before) + [a.w] else WritesOf(before)
  {
    assert (before + [a])[..|before|] == before;
  }

  /** Decrypts match the log: one for each granted entry whose chunk is stored. */
  ghost predicate Accounted(s: Store) {
    s.decrypts == GrantedKeys(s.entries, s.blobs.Keys)
  }

  /** What one step adds to the log, and to the decrypts: a write gets no entry. */
  lemma ActTrace(c: Cipher, index: map<ChunkKey, seq<nat>>, s: Store, a: Action)
    requires a.Wrote? ==> Targets(a.w, s.blobs.Keys)
    ensures
      var r, e := StoreAct(c, index, s, a), if a.Called? then Entry(s.policy, index, a.call) else [];
      && r.entries == s.entries + e
      && r.policy == PolicyAfter(s.policy, if a.Called? then [a.call] else [])
      && if a.Called? then r.decrypts == s.decrypts + GrantedKeys(e, s.blobs.Keys)
         else |r.decrypts| > |s.decrypts|
  {
    if a.Called? {
      StoreStep(c, index, s, a.call);
      assert [a.call][..0] == [];
    }
  }

  lemma TrailSnoc(p: Policy, index: map<ChunkKey, seq<nat>>, calls: seq<Call>, call: Call)
    ensures Trail(p, index, calls + [call]) == Trail(p, index, calls) + Entry(PolicyAfter(p, calls), index, call)
    ensures PolicyAfter(p, calls + [call]) == PolicyAfter(PolicyAfter(p, calls), [call])
  {
    assert (calls + [call])[..|calls|] == calls;
    assert [call][..0] == [];
  }

  lemma {:induction false} PolicySeesCalls(c: Cipher, index: map<ChunkKey, seq<nat>>, s: Store, acts: seq<Action>)
    requires OnStored(acts, s.blobs.Keys)
    ensures StoreMix(c, index, s, acts).policy == PolicyAfter(s.policy, CallsOf(acts))
  {
    if acts != [] {
      var before, a := acts[..|acts| - 1], acts[|acts| - 1];
      assert acts == before + [a];
      MixSnoc(c, index, s, before, a);
      ListsSnoc(before, a);
      PolicySeesCalls(c, index, s, before);
      ActTrace(c, index, StoreMix(c, index, s, before), a);
      if a.Called? {
        TrailSnoc(s.policy, index, CallsOf(before), a.call);
      }
    }
  }

  /** The log sees the calls only, as if there were no writes. */
  lemma {:induction false} LogSeesCalls(c: Cipher, index: map<ChunkKey, seq<nat>>, s: Store, acts: seq<Action>)
    requires OnStored(acts, s.blobs.Keys)
    ensures StoreMix(c, index, s, acts).entries == s.entries + Trail(s.policy, index, CallsOf(acts))
  {
    if acts != [] {
      var before, a := acts[..|acts| - 1], acts[|acts| - 1];
      assert acts == before + [a];
      MixSnoc(c, index, s, before, a);
      ListsSnoc(before, a);
      LogSeesCalls(c, index, s, before);
      LogStep(c, index, s, before, a);
    }
  }

  lemma LogStep(c: Cipher, index: map<ChunkKey, seq<nat>>, s: Store, before: seq<Action>, a: Action)
    requires OnStored(before, s.blobs.Keys) && (a.Wrote? ==> Targets(a.w, s.blobs.Keys))
    requires StoreMix(c, index, s, before).entries == s.entries + Trail(s.policy, index, CallsOf(before))
    ensures
      StoreAct(c, index, StoreMix(c, index, s, before), a).entries ==
      s.entries + Trail(s.policy, index, if a.Called? then CallsOf(before) + [a.call] else CallsOf(before))
  {
    PolicySeesCalls(c, index, s, before);
    ActTrace(c, index, StoreMix(c, index, s, before), a);
    if a.Called? {
      TrailSnoc(s.policy, index, CallsOf(before), a.call);
    }
  }

  /** Every write leaves at least one decrypt that no entry accounts for. */
  lemma {:induction false} DecryptGap(c: Cipher, index: map<ChunkKey, seq<nat>>, s: Store, acts: seq<Action>)
    requires OnStored(acts, s.blobs.Keys) && Accounted(s)
    ensures
      var r := StoreMix(c, index, s, acts);
      && |r.decrypts| >= |GrantedKeys(r.entries, s.blobs.Keys)| + |WritesOf(acts)|
      && (WritesOf(acts) == [] ==> Accounted(r))
  {
    if acts != [] {
      var before, a := acts[..|acts| - 1], acts[|acts| - 1];
      assert acts == before + [a];
      MixSnoc(c, index, s, before, a);
      ListsSnoc(before, a);
      DecryptGap(c, index, s, before);
      var now := StoreMix(c, index, s, before);
      ActTrace(c, index, now, a);
      if a.Called? {
        GrantedKeysConcat(now.entries, Entry(now.policy, index, a.call), now.blobs.Keys);
      }
    }
  }

  /** Over any run of calls and writes, decrypts match the audit log exactly
      when there was no write; the log itself never shows one. */
  lemma AuditedIff(c: Cipher, index: map<ChunkKey, seq<nat>>, s: Store, acts: seq<Action>)
    requires OnStored(acts, s.blobs.Keys) && Accounted(s)
    ensures Accounted(StoreMix(c, index, s, acts)) <==> forall a :: a in acts ==> a.Called?
    ensures StoreMix(c, index, s, acts).entries == s.entries + Trail(s.policy, index, CallsOf(acts))
  {
    DecryptGap(c, index, s, acts);
    LogSeesCalls(c, index, s, acts);
    NoWrites(acts);
  }

  /** One in-chunk update: a decrypt, and an empty log. */
  lemma UpdateIsUnaudited(c: Cipher, k: ChunkKey, blob: Bytes)
    ensures
      var r := WriteStep(c, Store(map[], [], map[k := blob], []), InChunk(k, Num(0), 0));
      r.decrypts == [k] && r.entries == [] && !Accounted(r)
  {
  }

  /******* Queries after writes *******/

  /** A query of a known chunk whose blob is readable. */
  lemma QueryReads(s: System, role: string, k: ChunkKey, region: Value, rs: seq<Record>)
    requires Caches.Inv(s.cache) && SmartIndex.Ids(s.index, k) != []
    requires k in s.store.blobs && Open(s.cipher, s.store.blobs[k]) == Records(rs)
    ensures Query(s, role, k, region).1 ==
            if Stuck(s.cache, k) then RaisedCacheFull
            else Returned(if Allowed(s.store.policy, role, k) then rs else [])
  {
    Caches.GetStep(s.cache, k, region);
    Caches.PutStep(Caches.CacheGet(s.cache, k, region), k, Region(s.regions, k));
  }

  /** One step more, `ws` being the writes so far. */
  lemma ActShows(c: Cipher, index: map<ChunkKey, seq<nat>>, s: Store, p: Plain, ws: seq<Write>, a: Action)
    requires RoundTrips(c) && AllTarget(ws, p.Keys) && (a.Wrote? ==> Targets(a.w, p.Keys))
    requires Shows(c, s.blobs, ApplyAll(p, ws))
    ensures a.Called? ==> Shows(c, StoreAct(c, index, s, a).blobs, ApplyAll(p, ws))
    ensures a.Wrote? ==> AllTarget(ws + [a.w], p.Keys) &&
                         Shows(c, StoreAct(c, index, s, a).blobs, ApplyAll(p, ws + [a.w]))
  {
    if a.Wrote? {
      AppliedSnoc(p, ws, a.w);
      StepShows(c, s, ApplyAll(p, ws), a.w);
    }
  }

  lemma {:induction false} MixShows(c: Cipher, index: map<ChunkKey, seq<nat>>, s: Store, p: Plain, acts: seq<Action>)
    requires RoundTrips(c) && OnStored(acts, p.Keys) && Shows(c, s.blobs, p)
    ensures AllTarget(WritesOf(acts), p.Keys)
    ensures Shows(c, StoreMix(c, index, s, acts).blobs, ApplyAll(p, WritesOf(acts)))
  {
    if acts != [] {
      var before, a := acts[..|acts| - 1], acts[|acts| - 1];
      assert acts == before + [a];
      MixSnoc(c, index, s, before, a);
      ListsSnoc(before, a);
      MixShows(c, index, s, p, before);
      ActShows(c, index, StoreMix(c, index, s, before), p, WritesOf(before), a);
    }
  }

  /** After any calls and writes, a query of a stored chunk returns what all the
      writes made of it, if allowed; it raises exactly when the cache is stuck. */
  lemma QueryAfterWrites(s: System, p: Plain, acts: seq<Action>, role: string, k: ChunkKey, region: Value)
    requires Caches.Inv(s.cache) && RoundTrips(s.cipher) && OnStored(acts, s.store.blobs.Keys)
    requires Shows(s.cipher, s.store.blobs, p) && k in p && SmartIndex.Ids(s.index, k) != []
    ensures AllTarget(WritesOf(acts), p.Keys)
    ensures
      var now := Mixed(s, acts);
      Query(now, role, k, region).1 ==
      if Stuck(now.cache, k) then RaisedCacheFull
      else Returned(if Allowed(now.store.policy, role, k) then ApplyAll(p, WritesOf(acts))[k] else [])
  {
    MixShows(s.cipher, s.index, s.store, p, acts);
    QueryReads(Mixed(s, acts), role, k, region, ApplyAll(p, WritesOf(acts))[k]);
  }

  /******* S2: queries see the updated records *******/

  /** The records with the first one of key `k` given a new duration. */
  function Edited(rs: seq<Record>, ext: Extractor, k: ChunkKey, v: Value): seq<Record> {
    if rs == [] then []
    else if ext(rs[0]) == k then [WithDuration(rs[0], v)] + rs[1..]
    else [rs[0]] + Edited(rs[1..], ext, k, v)
  }

  lemma MatchingCons(r: Record, rs: seq<Record>, ext: Extractor, k: ChunkKey)
    ensures Matching([r] + rs, ext, k) == if ext(r) == k then [r] + Matching(rs, ext, k) else Matching(rs, ext, k)
  {
    MatchingAppend([r], rs, ext, k);
    assert [r][..0] == [];
  }

  lemma {:induction false} EditedMatching(rs: seq<Record>, ext: Extractor, k: ChunkKey, v: Value, j: ChunkKey)
    requires KeyIgnoresDuration(ext)
    ensures Matching(Edited(rs, ext, k, v), ext, j) ==
            if j == k then Mutated(Matching(rs, ext, k), v) else Matching(rs, ext, j)
  {
    if rs != [] {
      var r, rest := rs[0], rs[1..];
      assert rs == [r] + rest;
      MatchingCons(r, rest, ext, j);
      if ext(r) == k {
        assert ext(WithDuration(r, v)) == k;
        MatchingCons(WithDuration(r, v), rest, ext, j);
      } else {
        EditedMatching(rest, ext, k, v, j);
        assert Edited(rs, ext, k, v) == [r] + Edited(rest, ext, k, v);
        MatchingCons(r, Edited(rest, ext, k, v), ext, j);
      }
    }
  }

  ghost predicate KeyIgnoresDuration(ext: Extractor) {
    forall r, v :: ext(WithDuration(r, v)) == ext(r)
  }

  /** The extractors of core/segmenter.py qualify. */
  lemma SourceKeysQualify(toInt: ToInt)
    ensures KeyIgnoresDuration(KeyBy(Kdd(toInt))) && KeyIgnoresDuration(KeyBy(Taxi(toInt)))
    ensures KeyIgnoresDuration(KeyBy(Weblog(toInt)))
  {
    ExtractorsIgnoreDuration(toInt);
    KeyByIgnores(Kdd(toInt));
    KeyByIgnores(Taxi(toInt));
    KeyByIgnores(Weblog(toInt));
  }

  lemma KeyByIgnores(raw: RawExtractor)
    requires IgnoresDuration(raw)
    ensures KeyIgnoresDuration(KeyBy(raw))
  {
  }

  /** The records after all the updates of a run, each in its place. */
  function Updated(rs: seq<Record>, ext: Extractor, acts: seq<Action>): seq<Record> {
    if acts == [] then rs
    else
      var before, a := Updated(rs, ext, acts[..|acts| - 1]), acts[|acts| - 1];
      if a.Wrote? && a.w.InChunk? then Edited(before, ext, a.w.k, a.w.duration) else before
  }

  lemma UpdateKeepsBuilt(c: Cipher, index: map<ChunkKey, seq<nat>>, s: Store, w: Write, rs: seq<Record>,
                         ext: Extractor)
    requires RoundTrips(c) && KeyIgnoresDuration(ext) && w.InChunk? && Targets(w, s.blobs.Keys)
    requires BuiltFrom(c, index, s.blobs, rs, ext)
    ensures BuiltFrom(c, index, WriteStep(c, s, w).blobs, Edited(rs, ext, w.k, w.duration), ext)
  {
    var rs' := Edited(rs, ext, w.k, w.duration);
    EditedKeys(rs, ext, w.k, w.duration);
    OpenSealed(c, w.nonce, Mutated(Matching(rs, ext, w.k), w.duration));
    forall j | j in s.blobs
      ensures Open(c, WriteStep(c, s, w).blobs[j]) == Records(Matching(rs', ext, j))
    {
      EditedMatching(rs, ext, w.k, w.duration, j);
    }
  }

  lemma EditedKeys(rs: seq<Record>, ext: Extractor, k: ChunkKey, v: Value)
    requires KeyIgnoresDuration(ext)
    ensures Keys(FirstKeys(Edited(rs, ext, k, v), ext)) == Keys(FirstKeys(rs, ext))
  {
    FirstKeysAre(rs, ext);
    FirstKeysAre(Edited(rs, ext, k, v), ext);
    forall j
      ensures j in FirstKeys(Edited(rs, ext, k, v), ext) <==> j in FirstKeys(rs, ext)
    {
      EditedMatching(rs, ext, k, v, j);
    }
  }

  ghost predicate OnlyUpdates(acts: seq<Action>) {
    forall a :: a in acts && a.Wrote? ==> a.w.InChunk?
  }

  lemma ActKeepsBuilt(c: Cipher, index: map<ChunkKey, seq<nat>>, s: Store, a: Action, rs: seq<Record>, ext: Extractor)
    requires RoundTrips(c) && KeyIgnoresDuration(ext) && BuiltFrom(c, index, s.blobs, rs, ext)
    requires a.Wrote? ==> a.w.InChunk? && Targets(a.w, s.blobs.Keys)
    ensures BuiltFrom(c, index, StoreAct(c, index, s, a).blobs,
                      if a.Wrote? then Edited(rs, ext, a.w.k, a.w.duration) else rs, ext)
  {
    if a.Wrote? {
      UpdateKeepsBuilt(c, index, s, a.w, rs, ext);
    }
  }

  lemma {:induction false} UpdatesKeepBuilt(c: Cipher, index: map<ChunkKey, seq<nat>>, s: Store, acts: seq<Action>,
                                            rs: seq<Record>, ext: Extractor)
    requires RoundTrips(c) && KeyIgnoresDuration(ext) && BuiltFrom(c, index, s.blobs, rs, ext)
    requires OnStored(acts, s.blobs.Keys) && OnlyUpdates(acts)
    ensures BuiltFrom(c, index, StoreMix(c, index, s, acts).blobs, Updated(rs, ext, acts), ext)
  {
    if acts != [] {
      var before, a := acts[..|acts| - 1], acts[|acts| - 1];
      assert acts == before + [a] && a in acts;
      MixSnoc(c, index, s, before, a);
      UpdatesKeepBuilt(c, index, s, before, rs, ext);
      ActKeepsBuilt(c, index, StoreMix(c, index, s, before), a, Updated(rs, ext, before), ext);
    }
  }

  /** After any calls and S2 updates a query is the linear scan of the updated
      records, with the same grants and the same raise as before. */
  lemma QueryAfterUpdates(s: System, acts: seq<Action>, role: string, k: ChunkKey, region: Value,
                          rs: seq<Record>, ext: Extractor)
    requires Built(s, rs, ext) && RoundTrips(s.cipher) && KeyIgnoresDuration(ext)
    requires OnStored(acts, s.store.blobs.Keys) && OnlyUpdates(acts)
    ensures
      var now, found := Mixed(s, acts), Matching(Updated(rs, ext, acts), ext, k);
      Query(now, role, k, region).1 ==
      if found != [] && Stuck(now.cache, k) then RaisedCacheFull
      else Returned(if Allowed(now.store.policy, role, k) then found else [])
  {
    UpdatesKeepBuilt(s.cipher, s.index, s.store, acts, rs, ext);
    QueryOnBuilt(Mixed(s, acts), role, k, region, Updated(rs, ext, acts), ext);
  }

  /******* S3: a move breaks the queries of its two chunks *******/

  function Scanned(blobs: Blobs, rs: seq<Record>, ext: Extractor): Plain {
    map k | k in blobs :: Matching(rs, ext, k)
  }

  /** On a store built from records no chunk is empty and all are well placed. */
  lemma BuiltShows(c: Cipher, index: map<ChunkKey, seq<nat>>, blobs: Blobs, rs: seq<Record>, ext: Extractor)
    requires BuiltFrom(c, index, blobs, rs, ext)
    ensures
      var p := Scanned(blobs, rs, ext);
      Shows(c, blobs, p) && WellPlaced(p, ext) && forall k :: k in p ==> p[k] != []
  {
    var p := Scanned(blobs, rs, ext);
    FirstKeysAre(rs, ext);
    forall k | k in p
      ensures p[k] != [] && forall r :: r in p[k] ==> ext(r) == k
    {
      assert k in Keys(FirstKeys(rs, ext));
      MatchingHasKey(rs, ext, k);
    }
  }

  /** A move out of a chunk that is not empty changes exactly its two chunks. */
  lemma MoveChanges(p: Plain, w: Write, k: ChunkKey)
    requires w.Move? && Targets(w, p.Keys) && p[w.a] != [] && k in p
    ensures ApplyPlain(p, w)[k] == p[k] <==> k != w.a && k != w.b
  {
    var q := ApplyPlain(p, w);
    assert |q[w.a]| == |p[w.a]| - 1 && |q[w.b]| == |p[w.b]| + 1;
  }

  /** So on a built store it misplaces a record, and its two blobs no longer
      hold what the scan finds. */
  lemma MoveOnBuilt(c: Cipher, index: map<ChunkKey, seq<nat>>, s: Store, w: Write, rs: seq<Record>, ext: Extractor)
    requires RoundTrips(c) && w.Move? && Targets(w, s.blobs.Keys)
    requires BuiltFrom(c, index, s.blobs, rs, ext)
    ensures
      var q := ApplyPlain(Scanned(s.blobs, rs, ext), w);
      && Shows(c, WriteStep(c, s, w).blobs, q) && !WellPlaced(q, ext)
      && forall k :: k in q ==> (q[k] == Matching(rs, ext, k) <==> k != w.a && k != w.b)
  {
    var p := Scanned(s.blobs, rs, ext);
    BuiltShows(c, index, s.blobs, rs, ext);
    StepShows(c, s, p, w);
    MoveMisplaces(p, w, ext);
    forall k | k in p
      ensures ApplyPlain(p, w)[k] == Matching(rs, ext, k) <==> k != w.a && k != w.b
    {
      MoveChanges(p, w, k);
    }
  }

  lemma MoveBreaksBuilt(c: Cipher, index: map<ChunkKey, seq<nat>>, s: Store, w: Write, rs: seq<Record>, ext: Extractor)
    requires RoundTrips(c) && w.Move? && Targets(w, s.blobs.Keys)
    requires BuiltFrom(c, index, s.blobs, rs, ext)
    ensures !BuiltFrom(c, index, WriteStep(c, s, w).blobs, rs, ext)
  {
    MoveOnBuilt(c, index, s, w, rs, ext);
    assert w.a in WriteStep(c, s, w).blobs;
  }

  /** After one S3 move a query that is allowed and not stuck returns the linear
      scan exactly for the keys that the move did not touch. */
  lemma QueryAfterMove(s: System, w: Write, role: string, k: ChunkKey, region: Value,
                       rs: seq<Record>, ext: Extractor)
    requires Built(s, rs, ext) && RoundTrips(s.cipher)
    requires w.Move? && Targets(w, s.store.blobs.Keys)
    requires k in s.index && Allowed(s.store.policy, role, k) && !Stuck(s.cache, k)
    ensures Query(Act(s, Wrote(w)), role, k, region).1 == Returned(Matching(rs, ext, k)) <==> k != w.a && k != w.b
  {
    MoveOnBuilt(s.cipher, s.index, s.store, w, rs, ext);
    QueryReads(Act(s, Wrote(w)), role, k, region, ApplyPlain(Scanned(s.store.blobs, rs, ext), w)[k]);
  }

  /** Over calls and moves, index and blobs answer for the records after every
      step exactly when nothing was moved. */
  lemma MovesBreakQueries(c: Cipher, index: map<ChunkKey, seq<nat>>, s: Store, acts: seq<Action>,
                          rs: seq<Record>, ext: Extractor)
    requires RoundTrips(c) && BuiltFrom(c, index, s.blobs, rs, ext)
    requires OnStored(acts, s.blobs.Keys) && forall a :: a in acts && a.Wrote? ==> a.w.Move?
    ensures BuiltThroughout(c, index, s, acts, rs, ext) <==> WritesOf(acts) == []
  {
    if acts != [] {
      var before, a := acts[..|acts| - 1], acts[|acts| - 1];
      assert acts == before + [a] && a in acts;
      MixSnoc(c, index, s, before, a);
      ListsSnoc(before, a);
      MovesBreakQueries(c, index, s, before, rs, ext);
      if BuiltThroughout(c, index, s, before, rs, ext) {
        MoveOrCall(c, index, StoreMix(c, index, s, before), a, rs, ext);
      }
    }
  }

  lemma MoveOrCall(c: Cipher, index: map<ChunkKey, seq<nat>>, s: Store, a: Action, rs: seq<Record>, ext: Extractor)
    requires RoundTrips(c) && BuiltFrom(c, index, s.blobs, rs, ext)
    requires a.Wrote? ==> a.w.Move? && Targets(a.w, s.blobs.Keys)
    ensures BuiltFrom(c, index, StoreAct(c, index, s, a).blobs, rs, ext) <==> a.Called?
  {
    if a.Wrote? {
      MoveBreaksBuilt(c, index, s, a.w, rs, ext);
    }
  }

  ghost predicate BuiltThroughout(c: Cipher, index: map<ChunkKey, seq<nat>>, s: Store, acts: seq<Action>,
                                  rs: seq<Record>, ext: Extractor)
    requires OnStored(acts, s.blobs.Keys)
  {
    && BuiltFrom(c, index, StoreMix(c, index, s, acts).blobs, rs, ext)
    && (acts == [] || BuiltThroughout(c, index, s, acts[..|acts| - 1], rs, ext))
  }

  /** For example: two records of different keys, one moved to the other's chunk.
      The chunk of the first key is then empty, that of the second holds both. */
  lemma MoveMisplacesOne(c: Cipher, index: map<ChunkKey, seq<nat>>, s: Store, r: Record, q: Record, ext: Extractor,
                         nonceA: nat, nonceB: nat)
    requires RoundTrips(c) && ext(r) != ext(q) && BuiltFrom(c, index, s.blobs, [r, q], ext)
    ensures
      var w := Move(ext(r), ext(q), nonceA, nonceB);
      && Targets(w, s.blobs.Keys)
      && Shows(c, WriteStep(c, s, w).blobs, map[ext(r) := [], ext(q) := [q, r]])
  {
    var w := Move(ext(r), ext(q), nonceA, nonceB);
    PairBuilt(c, index, s.blobs, r, q, ext);
    StepShows(c, s, map[ext(r) := [r], ext(q) := [q]], w);
    PairMoved(ext(r), ext(q), r, q, w);
  }

  lemma PairBuilt(c: Cipher, index: map<ChunkKey, seq<nat>>, blobs: Blobs, r: Record, q: Record, ext: Extractor)
    requires ext(r) != ext(q) && BuiltFrom(c, index, blobs, [r, q], ext)
    ensures Shows(c, blobs, map[ext(r) := [r], ext(q) := [q]])
  {
    TwoChunks(r, q, ext);
    assert Keys([ext(r), ext(q)]) == {ext(r), ext(q)};
  }

  lemma PairMoved(a: ChunkKey, b: ChunkKey, r: Record, q: Record, w: Write)
    requires a != b && w.Move? && w.a == a && w.b == b
    ensures ApplyPlain(map[a := [r], b := [q]], w) == map[a := [], b := [q, r]]
  {
    var p: Plain := map[a := [r], b := [q]];
    assert p[a][1..] == [] && p[b] + [p[a][0]] == [q, r];
  }

  lemma TwoChunks(r: Record, q: Record, ext: Extractor)
    requires ext(r) != ext(q)
    ensures Matching([r, q], ext, ext(r)) == [r] && Matching([r, q], ext, ext(q)) == [q]
    ensures FirstKeys([r, q], ext) == [ext(r), ext(q)]
  {
    assert [r, q] == [r] + [q] && [q] == [q] + [];
    MatchingCons(r, [q], ext, ext(r));
    MatchingCons(r, [q], ext, ext(q));
    MatchingCons(q, [], ext, ext(r));
    MatchingCons(q, [], ext, ext(q));
    FirstKeysBlock([r], [q], ext, ext(q));
    FirstKeysBlock([], [r], ext, ext(r));
    assert [] + [r] == [r];
  }
}
