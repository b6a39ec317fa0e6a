# SCADS in Dafny

A model of the SCADS layers and proofs about it: the five cache policies of
`core/cache.py`, the reference LRU and request loop they are compared with, and
the path segment -> index -> encrypted store -> query, with the two write paths
and the statistics of the benchmarks.

Every object that the program updates in place is a class here. Its methods are
proved equal to functions on a value snapshot, and the results below are lemmas
about those functions, over every input, every run or every reachable state.

| files | subject |
|---|---|
| `Types`, `KeyLists` | keys, records, calls; ordered dictionaries as key lists |
| `LruStack`, `RefLru` | the plain LRU, stack distance, inclusion; the request loop |
| `ArcSpec`, `ArcSafety`, `ArcDirectory`, `ArcCache` | ARC: one step, runs, the DBL(2c) refinement, the object |
| `SketchSpec`, `CountMinSketch`, `TinyLfuSpec`, `TinyLfuCache` | the aging sketch and its error; admission |
| `FrameSpec`, `FrameGrace`, `FrameOrder`, `FrameHistory`, `FrameCache` | SCADS, LRU, LFU: frames, grace, order, statistics, the object |
| `Caches` | the five policies behind one interface |
| `Segmentation`, `SmartIndex`, `StoreSpec`, `SecureStore` | chunks, index, access control, audit, blobs |
| `PipelineSpec`, `Pipeline` | queries over runs, the query object |
| `Writes`, `WriteRuns` | the write loops; queries and writes interleaved |
| `Stats` | percentiles, the confidence interval |

## Main results

- **ARC.** Under any gets, puts, pins and unpins, raising puts included, the four
  lists stay disjoint and within their bounds and no list operation misses. In
  pin-free runs `b1+t1` and `b2+t2` are the two LRU lists of DBL(2c), whatever the
  target does; so any forgotten key is at least c distinct keys behind, and the
  directory covers a plain LRU of the same capacity.
- **Sketch and TinyLFU.** With exact counters halved together with the sketch, every
  cell is at least the exact sum of its keys and exceeds it by less than the number
  of keys sharing it. Estimates never undercount and one collision-free row makes
  them exact; whoever displaces a resident is estimated at least at the resident's
  exact count.
- **Frame caches.** A frame's statistics, its grace and its recency are told by the
  calls since its present residence began. After the first eviction of a pin-free run at most one frame is
  graced. A scan of any length, mixed with own-region hits on the hot set, never evicts
  a hot key from SCADS. `LRUCache` is a move-to-end list that
  spares graced keys.
- **Plain LRU.** A key is held exactly when fewer than c distinct keys were requested
  since; hits never drop as capacity grows, also with the benchmark's warm-up.
- **Queries.** After any calls a query equals the linear scan filtered by the grants,
  the audit log is complete, and decryption happens once per granted, stored entry. The
  pipeline's cache is the policy's own run on the cache calls the queries make, so all
  results on policies apply to it.
- **Queries and writes.** After any calls and S2 updates a query equals the linear scan
  of the updated records.

## Where the obvious claim is false

- `LRUCache` is not the reference LRU. One request agrees with it exactly when there is
  no eviction, or the oldest frame is out of its grace, or all frames are in it
  (`FrameOrder.AgreesIff`); over a run the residents agree after every request exactly
  when each one meets that condition (`FrameOrder.CoreLruMeetsReference`).
  `FrameOrder.GraceBreaksLru` shows a trace on which they differ.
- SCADS does not keep every hot set through a miss: it does exactly when some frame
  outside the set is out of its grace (`FrameGrace.MissSparesIff`).
  `FrameGrace.ScadsLosesHot` shows a trace from an empty cache that loses one.
- The S3 write path stores the moved record under a key that is not its own. Records
  stay in the chunk of their key exactly when every move takes from an empty chunk
  (`Writes.MovesMisplace`); a store built from records has none, so index and blobs
  answer for the records exactly while nothing was moved
  (`WriteRuns.MovesBreakQueries`). After one move the queries of its two chunks are wrong
  and no others (`WriteRuns.QueryAfterMove`); `WriteRuns.MoveMisplacesOne` is an instance.
- core/security.py:135 says the audit log cannot be bypassed by any data-touching path.
  Decrypts match the log exactly as long as there was no write, since the write loops
  decrypt without an entry (`WriteRuns.AuditedIff`, instance
  `WriteRuns.UpdateIsUnaudited`).
- A logger passed to the chunk store is not always the one that is written to: an empty
  one counts as missing at core/security.py:147 and is replaced. It gets the entries
  exactly when it was not empty or there are none (`SecureStore.SuppliedLog`, instance
  `SecureStore.NewLoggerMisses`). The tests read `store.audit` for this reason
  (tests/test_pipeline.py:45-46).
- core/segmenter.py:28 says that `_safe_int` never raises on malformed input. It does
  where `int()` overflows, and then so does the extractor: exactly when a field it reads
  is a float infinity (`Segmentation.InfinityRaisesIff`, instance
  `Segmentation.KddRaises`).
- benchmarks/stats.py:32-33 calls the small-sample table conservative. Taking its entries
  as true values and the true values as falling, it is so exactly at its entries, and in
  every gap between them it gives less (`Stats.ConservativeIff`, instances 11 and 27 in
  `Stats.NotConservative`). The shorter table of benchmarks/bench_writes.py is so exactly
  up to 10 and at 29 (`Stats.ShortConservativeIff`). The long table even rises from a gap
  to a later entry (`Stats.LongTableDips`).
- tests/test_cache.py:71-86 expects the hit rate to climb with capacity, on one skewed
  workload. As a law this holds for the reference LRU (`LruStack.HitsMonotone`), and for
  `LRUCache` where grace is idle at both capacities (`FrameOrder.CoreHitsMonotone`), but
  `FrameOrder.MoreRoomFewerHits` shows a trace on which `LRUCache` hits twice at
  capacity 2 and once at 3.

## Model

| member | source | states |
|---|---|---|
| LruStack.StackDistance | benchmarks/bench_baseline_cache.py:150-173 | the reference LRU holds a key iff it was requested and fewer than c distinct keys were requested since |
| LruStack.LruIsNewest | benchmarks/bench_baseline_cache.py:160-173 | the contents list is always the c newest keys of the recency list |
| LruStack.Inclusion | benchmarks/bench_baseline_cache.py:160-173 | for c <= c' the smaller cache's list is a suffix of the larger's, after every request sequence |
| LruStack.HitsMonotone | benchmarks/bench_baseline_cache.py:273-277 | the hit count of the request loop never drops as capacity grows |
| LruStack.WarmedRun | benchmarks/bench_baseline_cache.py:261-277 | a warmed cache is the unqueried warm keys followed by the cold contents, and has saved one miss per distinct key queried, up to c |
| LruStack.DriverHitsMonotone | benchmarks/bench_baseline_cache.py:257-286 | the driver's hit count, warm-up included, never drops as capacity grows |
| RefLru.RefLRU.Get | benchmarks/bench_baseline_cache.py:160-164 | hit iff present; a hit moves the key to the young end |
| RefLru.RefLRU.Put | benchmarks/bench_baseline_cache.py:166-173 | touch a present key, append an absent one and drop the oldest over capacity |
| RefLru.RunAdapter | benchmarks/bench_baseline_cache.py:257-286 | reported hits are the cold hits plus min(c, number of distinct keys); hits and misses add up to the queries |
| ArcSafety.Run | core/cache.py:171-275 | any interleaving of calls, raising or not, keeps: lists duplicate-free and disjoint, all size bounds, ghosts only at a full cache, 0 <= p <= c; full stays full |
| ArcSafety.PutStep | core/cache.py:201-275 | a put raises iff the key is absent, the cache full and every resident pinned; then residents are unchanged; otherwise the key is the youngest of t1 (new) or t2 (tracked); pinned residents stay |
| ArcSafety.PinnedStays | core/cache.py:55-60 | a pinned resident survives every run without its unpin |
| ArcSafety.PutResidentIsGet | core/cache.py:205-209 | putting a resident key is the same as hitting it |
| ArcSpec.GetMoves | core/cache.py:188-199 | a get leaves target and ghosts; a miss leaves all four lists; a hit moves the key from its place to the young end of t2 |
| ArcSafety.GhostHitMoves | core/cache.py:211-223 | pins or not, the exact four lists after a ghost hit: the side that pays under the new target, its oldest unpinned key, the key at the young end of t2; a raise moves the target only |
| ArcSafety.NewKeyMoves | core/cache.py:225-242 | pins or not, the exact four lists after a brand-new key: which ghost is dropped (also by a raise), who makes room, and the key at the young end of t1 |
| ArcSafety.ReplaceTakesOldest | core/cache.py:244-275 | REPLACE turns the oldest unpinned key of the paying side into the youngest ghost of that side, and which side pays |
| ArcSafety.TargetRule | core/cache.py:211-223 | a ghost hit moves the target towards its side, and t1 shrinks iff it exceeds the new target (or meets it on a b2 hit) |
| ArcSafety.TargetAmount | core/cache.py:212-219 | by how much: the rounded ghost length ratio, at least 1, clamped to 0..c |
| ArcSafety.NewKeyTarget | core/cache.py:225-248 | a brand-new key leaves the target alone and t1 makes the room iff it exceeds it |
| ArcDirectory.ArcRefinesDbl | core/cache.py:188-275 | in every pin-free run b1+t1 and b2+t2 are the lists of DBL(2c), whatever p does |
| ArcDirectory.ReplaceKeepsDirectory | core/cache.py:244-275 | without pins REPLACE never raises and never changes the directory |
| ArcDirectory.DblCovers | core/cache.py:168-170 | DBL(2c) lists are in recency order and any untracked requested key is c distinct keys behind |
| ArcDirectory.ForgottenIsFarBehind | core/cache.py:201-242 | a key ARC has forgotten has at least c distinct keys requested after it |
| ArcDirectory.DirectoryCoversLru | core/cache.py:201-275 | ARC's directory contains everything the reference LRU of capacity c holds on the same requests |
| ArcCache.ARCCache.Get | core/cache.py:188-199 | the object's hit path, counters included, is the specified step |
| ArcCache.ARCCache.Put | core/cache.py:201-242 | the object's put, raise included, is the specified step and keeps the invariant |
| ArcCache.ARCCache.Replace | core/cache.py:244-268 | the object's REPLACE is the specified one |
| ArcCache.ARCCache.PopLruUnpinned | core/cache.py:270-275 | the scan cuts out exactly the oldest unpinned key |
| SketchSpec.CellIsClose | core/cache.py:282-309 | after any increments and agings a cell is 0 if untouched, else between the exact sum S of its keys and S + m - 1 for m keys |
| SketchSpec.NeverUndercounts | core/cache.py:301-302 | the estimate is at least the exact aged count |
| SketchSpec.ExactWhenAlone | core/cache.py:301-302 | one collision-free row makes the estimate exact |
| SketchSpec.ExactWhenHashesDiffer | core/cache.py:291-302 | in terms of the hash: if in some row no other counted key has the remainder of the key's hash, its estimate is exact |
| SketchSpec.OtherKeyUncounted | core/cache.py:291-302 | an instance: after one increment of another key the estimate is 0 |
| SketchSpec.IncrementHits | core/cache.py:291-299 | an increment adds one to exactly the cell numbered by that remainder in every row, then halves all at the window |
| SketchSpec.EstimateIsLeast | core/cache.py:291-302 | the estimate is the least of the cells so numbered |
| SketchSpec.MinCellIsLeast | core/cache.py:301-302 | the estimate is one of the key's cells and at most each of them |
| SketchSpec.RowsBounded | core/cache.py:289-309 | every row sums to at most total, which stays below 8 * width |
| SketchSpec.EstimateBounded | core/cache.py:289-309 | every cell and estimate stays below 8 * width over unbounded runs |
| CountMinSketch.Sketch.Increment | core/cache.py:294-299 | one count in the key's cell of every row, then aging at the window |
| CountMinSketch.Sketch.Age | core/cache.py:304-309 | every cell and the total are halved, rounding down |
| CountMinSketch.Sketch.Estimate | core/cache.py:301-302 | the minimum over the rows, leaving the table alone |
| TinyLfuSpec.PutStep | core/cache.py:334-356 | raises iff absent, full and all pinned, residents then unchanged; pinned stay; never shrinks |
| TinyLfuSpec.GetMoves | core/cache.py:325-332 | a get counts its key; a hit moves it to the young end, a miss leaves the list |
| TinyLfuSpec.PutMoves | core/cache.py:334-343 | a put counts its key; a resident moves to the young end; a new key with room is appended and nothing leaves |
| TinyLfuSpec.NothingDisplaced | core/cache.py:334-356 | over runs, while at most capacity distinct keys were put, exactly these are resident |
| TinyLfuSpec.AdmissionStep | core/cache.py:344-356 | at a full cache the candidate replaces the oldest unpinned resident iff estimated at least as high, else the list is untouched |
| TinyLfuSpec.Admission | core/cache.py:352-356 | whoever displaces v is estimated at least at v's exact aged count; a really rarer candidate with a collision-free row never does |
| TinyLfuSpec.RunAdmission | core/cache.py:334-356 | over runs: whoever is displaced was unpinned and the least recently used of the unpinned residents, and the newcomer is estimated at least at its exact aged count in the whole run |
| TinyLfuSpec.RunFrom | core/cache.py:312-356 | over every run residents stay duplicate-free and within capacity |
| TinyLfuSpec.RunCounts | core/cache.py:325-335 | the sketch of a run is that of its gets and puts in order, raising puts included |
| TinyLfuSpec.RunInRecencyOrder | core/cache.py:325-356 | after any run the residents are listed from least to most recently got or put, so the victim is the least recently used unpinned one |
| TinyLfuSpec.PinnedStays | core/cache.py:55-60 | a pinned resident survives every run without its unpin |
| TinyLfuCache.TinyLFUCache.Get | core/cache.py:325-332 | the object's get is the specified step |
| TinyLfuCache.TinyLFUCache.Put | core/cache.py:334-356 | the object's put, raise included, is the specified step |
| FrameSpec.Run | core/cache.py:77-128 | any interleaving keeps: residents within capacity, recencies distinct and at most the clock, accessed frames not graced |
| FrameSpec.PutStep | core/cache.py:104-128 | raises iff absent, full and all pinned, changing only the clock; pinned residents stay |
| FrameSpec.PutEvicts | core/cache.py:112-128 | an eviction succeeds when any frame is unpinned; its victim is unpinned, graced only if all candidates are, of least weight in its standing and of least recency among equals; spared candidates lose their grace, pinned frames keep theirs |
| FrameSpec.VictimIsUnique | core/cache.py:130-164 | the victim rule determines the victim, so dictionary order never matters |
| FrameSpec.PinnedStays | core/cache.py:55-60 | a pinned resident survives every run without its unpin |
| FrameHistory.FrameTellsHistory | core/cache.py:66-114 | in every run a frame's count, query region and region are those of the calls since call i, which began the present residence: absent before it, resident ever since |
| FrameHistory.ResidenceIsUnique | core/cache.py:104-114 | the call that began the present residence is determined by the run |
| FrameHistory.GraceTellsHistory | core/cache.py:91-128 | in every run, pins and raises included, a resident is graced iff since its residence began it was not got and nothing was evicted while it was unpinned |
| FrameHistory.RecencyTellsHistory | core/cache.py:91-114 | in every run a resident's recency is the time of its latest get or put |
| FrameHistory.LruVictimIsOldest | core/cache.py:134-136 | after any run the LRU victim was used longest ago among the candidates of its standing |
| FrameHistory.ScoreMeans | core/cache.py:151-155 | the score (times 100) is 6 per access up to ten, plus 40 for a latest query from the chunk's own region or 8; match and mismatch never tie |
| FrameHistory.LfuVictimIsLeastUsed | core/cache.py:139-142 | after any run the LFU victim has, in its present residence, at most the gets of any candidate of its standing, and among equals it was used longest ago |
| FrameHistory.ScadsVictimMeritsLeast | core/cache.py:151-164 | after any run the SCADS victim has the least score of its standing, written out from the gets and regions of the present residences, and among equals it was used longest ago |
| FrameGrace.GraceAfterEviction | core/cache.py:116-128 | after any pin-free run with an eviction, from any unpinned state, at most one frame is graced, the one inserted last |
| FrameGrace.ScanResistance | core/cache.py:145-164 | any number of requests for absent keys, mixed with own-region hits on the hot set, never evicts a hot set of at most capacity - 2 keys, and keeps it hot |
| FrameGrace.NoRoomForScan | core/cache.py:116-128 | with one hot key more, capacity - 1, two misses in a row always lose a hot key |
| FrameGrace.MissSparesIff | core/cache.py:116-128 | a miss spares an outscoring accessed set iff some frame outside it is out of its grace |
| FrameGrace.ScadsLosesHot | core/cache.py:116-128 | a trace from empty at capacity 2 whose last miss evicts the accessed frame of score 46 and keeps the graced one of score 8 |
| FrameOrder.ClockRefinesList | core/cache.py:91-136 | every run of `LRUCache`, pins and raises included, is the run of the list whose victim is the first unpinned non-graced key, else the first unpinned |
| FrameOrder.PutShows | core/cache.py:104-136 | one put of the clock form is one put of the list form, raise included |
| FrameOrder.AgreesIff | core/cache.py:120-128 | one request agrees with the reference LRU iff grace does not change the victim |
| FrameOrder.RunAgreesIff | benchmarks/bench_baseline_cache.py:160-173 | over a pin-free run lists agree after every request iff no victim is changed by grace; then hits agree too |
| FrameOrder.CoreLruMeetsReference | core/cache.py:134-136 | over a pin-free run the residents of `LRUCache` are those of the reference LRU after every request iff grace changes no victim; then so are its hits |
| FrameOrder.CoreHitsMonotone | tests/test_cache.py:71-86 | where grace is idle at both capacities, the larger `LRUCache` hits no less |
| FrameOrder.MoreRoomFewerHits | core/cache.py:116-136 | a trace on which `LRUCache` hits twice at capacity 2 and once at capacity 3 |
| FrameOrder.GraceBreaksLru | core/cache.py:120-128 | a trace at capacity 2 on which they differ |
| FrameCache.FrameCache.Get | core/cache.py:91-102 | the object's get updates the frame in place as specified |
| FrameCache.FrameCache.Put | core/cache.py:104-114 | the object's put, raise included, is the specified step |
| FrameCache.FrameCache.Evict | core/cache.py:116-128 | the object's eviction, grace clearing included, is the specified one |
| FrameCache.FrameCache.SelectVictim | core/cache.py:134-164 | the first key of least rank in the pool |
| Caches.PutStep | core/cache.py:23-60 | for all five policies: when put raises, what a raise leaves, and that pinned residents stay |
| Caches.Make | core/cache.py:26-32 | a capacity that is not positive is refused; otherwise the cache is the policy asked for, of that capacity, empty and unpinned |
| Segmentation.Segment | core/segmenter.py:41-58 | chunk i has id i and the i-th new key, its region, and exactly the records of that key in order; raises iff the extractor raises on some record |
| Segmentation.Reassemble | core/segmenter.py:60-69 | the chunks' records one after the other |
| Segmentation.NothingLost | core/segmenter.py:12-13 | reassembly of the segmentation is a permutation of the records |
| Segmentation.MatchingInOrder | core/segmenter.py:41-58 | the records of a key are those at all its positions, in order |
| Segmentation.FirstKeysByAppearance | core/segmenter.py:41-58 | the chunks' keys come in the order of their first record |
| Segmentation.SegmentAgain | core/segmenter.py:41-69 | segmenting the reassembled records gives the same keys in the same order with the same record lists |
| Segmentation.SameKddChunk | core/segmenter.py:72-79 | two records share a KDD chunk iff protocols agree and byte counts differ by multiples of 24 and 8 |
| Segmentation.KddKeyIs | core/segmenter.py:72-79 | the KDD key component by component from the numbers int() reads and the record's fields |
| Segmentation.TaxiKeyIs | core/segmenter.py:82-88 | the same for the taxi key |
| Segmentation.WeblogKeyIs | core/segmenter.py:91-105 | the same for the web log key, hour explicit or from the epoch |
| Segmentation.WeblogHourOfEpoch | core/segmenter.py:91-105 | an epoch timestamp gets the same key as its explicit hour |
| Segmentation.ExtractorsRaiseIff | core/segmenter.py:27-32 | an extractor raises iff int() overflows on a field it reads; otherwise malformed fields count as 0 and the bucketed components are in range |
| Segmentation.InfinityRaisesIff | core/segmenter.py:27-32 | with Python's int(), each extractor raises iff a field it reads is a float infinity |
| Segmentation.KddRaises | core/segmenter.py:72-79 | the record whose src_bytes is infinite makes the KDD extractor raise |
| SmartIndex.Index.Build | core/index.py:29-36 | every chunk key maps to its own chunk's id and nothing else is indexed |
| SmartIndex.IndexFindsChunks | core/index.py:29-43 | on the built index a lookup gives the i-th chunk's id iff the key is the i-th one, nothing iff no record has the key, and no two keys share an id |
| StoreSpec.GrantMeans | core/security.py:74-84 | a grant allows exactly what it names on top of what was allowed; a wildcard absorbs keys |
| StoreSpec.RevokeMeans | core/security.py:86-95 | a revoke takes everything from its role and nothing from others |
| SecureStore.SecureChunkStore.Fetch | core/security.py:156-167 | audit, then the access decision, then at most one decrypt |
| SecureStore.SecureChunkStore.constructor | core/security.py:139-148 | a supplied logger is used iff it has entries; otherwise the store logs to a fresh one |
| SecureStore.SuppliedLog | core/security.py:112-147 | after any fetches the supplied logger has gained every entry iff it was not empty or there were none |
| SecureStore.NewLoggerMisses | core/security.py:139-160 | one fetch through a store made with a new logger: the store's log has the entry, the logger stays empty |
| PipelineSpec.QueryIsLinearScan | core/pipeline.py:41-73 | after any calls a query returns exactly the matching records in order if allowed, [] if not; it raises iff the chunk exists and the cache cannot take it |
| PipelineSpec.QueryFillsCache | core/pipeline.py:58-71 | an unknown chunk leaves the cache alone; a returned known one is resident afterwards, except where TinyLFU's door refuses it |
| PipelineSpec.CacheIsPolicyRun | core/pipeline.py:58-71 | over any calls, from any state, the pipeline's cache is the policy's own run on a get with the query region per index-hit query and a put with the chunk's region after a miss that was no bad tag |
| PipelineSpec.QueryRecorded | core/pipeline.py:63 | a query of a resident key leaves its frame with one access more, the query's region, no grace and the newest recency; under ARC it is the youngest of t2; under TinyLFU the youngest, and counted |
| PipelineSpec.TamperedRaises | core/pipeline.py:65-66 | an allowed query of a chunk that does not decrypt raises InvalidTag, is logged, and fills nothing |
| PipelineSpec.RunStore | core/pipeline.py:58-71 | index, blobs, policy and audit evolve the same way whatever the cache policy and its raises |
| PipelineSpec.AuditIsComplete | core/security.py:112-113 | the log grows by one entry per index-hit query with the decision then in force; decrypts are exactly the granted, stored entries |
| Pipeline.SCADSPipeline.Query | core/pipeline.py:41-73 | the object's query, for any of the five caches, is the specified step |
| Pipeline.BuildSystem | benchmarks/bench_writes.py:97-111 | index and store come out built from the records' chunks: the i-th chunk under its id i and encrypted under the i-th nonce; raises iff the extractor does |
| Writes.ApplyShows | benchmarks/bench_writes.py:247-262 | a write on encrypted blobs refines its plain effect and never raises on readable blobs |
| Writes.ApplyRaisesIff | benchmarks/bench_writes.py:242-355 | a write raises iff a blob it reads does not decrypt, and which blobs it tries |
| Writes.RaiseLeavesBlobs | benchmarks/bench_writes.py:242-355 | a write that raises leaves all blobs; no write touches policy or audit log |
| Writes.ApplyEncrypts | benchmarks/bench_writes.py:257-370 | what a write touches is encrypted under the nonces drawn, all else stays |
| Writes.UpdateSetsDuration | benchmarks/bench_writes.py:251-256 | an update sets the duration of the chunk's first record; its other fields, the later records and the other chunks stay |
| Writes.MoveShifts | benchmarks/bench_writes.py:356-363 | a move takes the first record of one chunk to the end of the other |
| Writes.UpdatesKeepKeys | benchmarks/bench_writes.py:238-269 | any number of S2 updates keeps record counts and every record's extracted key, for each extractor that ignores the duration |
| Writes.ExtractorsIgnoreDuration | core/segmenter.py:72-105 | all three extractors do |
| Writes.UpdatesKeepPlacement | benchmarks/bench_writes.py:264-268 | so every record stays in the chunk of its key and the index needs no update |
| Writes.MovesConserve | benchmarks/bench_writes.py:339-370 | any number of S3 moves conserves the multiset of all stored records |
| Writes.MoveMisplaces | benchmarks/bench_writes.py:356-363 | a move keeps records in the chunk of their key iff it moved nothing |
| Writes.MovesMisplace | benchmarks/bench_writes.py:339-370 | over a run of moves, records are in the chunk of their key after every move iff each source chunk is empty at the start |
| Writes.PlacementIsScan | benchmarks/bench_writes.py:97-111 | each chunk is the linear scan of all stored records for its key iff records are in the chunk of their key |
| Writes.WriteOnce | benchmarks/bench_writes.py:242-264 | one write on the object, raise included, is the specified step: new blobs, its decrypt calls, no audit entry |
| Writes.WriteAll | benchmarks/bench_writes.py:238-379 | the loop on a readable store raises nothing, shows the plain effect of all writes, decrypts every chunk they touch and leaves the audit log alone |
| WriteRuns.AuditedIff | core/security.py:133-136 | over any calls and writes, decrypts match the granted, stored entries iff there was no write; the log shows the calls only |
| WriteRuns.UpdateIsUnaudited | benchmarks/bench_writes.py:242-264 | one in-chunk update on an empty log: one decrypt, no entry |
| WriteRuns.QueryAfterWrites | benchmarks/bench_writes.py:238-379 | after any calls and writes a query of a stored chunk returns what all the writes made of it, if allowed, and raises iff the cache is stuck |
| WriteRuns.QueryAfterUpdates | benchmarks/bench_writes.py:264-268 | after any calls and S2 updates a query is the linear scan of the updated records; the index needs no update |
| WriteRuns.SourceKeysQualify | core/segmenter.py:72-105 | the keys of all three extractors meet that theorem's premise |
| WriteRuns.QueryAfterMove | benchmarks/bench_writes.py:339-370 | after one S3 move on a built store an allowed query returns the linear scan iff its key is neither end of the move |
| WriteRuns.MovesBreakQueries | benchmarks/bench_writes.py:372-379 | over calls and moves, index and blobs answer for the records after every step iff there was no move |
| WriteRuns.MoveMisplacesOne | benchmarks/bench_writes.py:356-370 | two records of different keys: after the move one chunk is empty and the other holds both |
| Stats.PercentileMonotone | benchmarks/stats.py:49-53 | the interpolated percentile is monotone in p and within the sample's range |
| Stats.PercentileAtSample | benchmarks/bench_writes.py:114-121 | at the position of a sample the percentile is that sample; 0 gives the minimum, 100 the maximum |
| Stats.InterpolateLinear | benchmarks/stats.py:49-53 | between neighbouring samples, ends included, the percentile climbs at a constant rate |
| Stats.PercentileLinear | benchmarks/stats.py:49-53 | between neighbouring sample positions, ends included, the percentile is linear in p |
| Stats.SumAdds | benchmarks/stats.py:29-30 | the sum adds up over parts and is the sample for one sample |
| Stats.MeanTimes | benchmarks/stats.py:29-30 | the mean times n is the sum |
| Stats.DeviationsAdd | benchmarks/stats.py:35 | squared deviations add up, one sample giving the square of its own |
| Stats.VarianceTimes | benchmarks/stats.py:35 | the variance times n - 1 is the sum of squared deviations from the mean |
| Stats.TablesAre | benchmarks/stats.py:38-44 | the entries of both tables and the values between them |
| Stats.ConservativeIff | benchmarks/stats.py:32-44 | for true values that fall and agree with the entries, the long table gives at least the true value iff the degrees of freedom are one of its entries |
| Stats.TrueValuesExist | benchmarks/stats.py:38-44 | values that fall and agree with the entries exist: straight lines through the gaps |
| Stats.ShortConservativeIff | benchmarks/bench_writes.py:131-136 | the short table does iff they are at most 10, or 29 |
| Stats.LongTableDips | benchmarks/stats.py:38-44 | the long table's value rises exactly from a gap above 10 to a later entry of 15, 20 or 25 |
| Stats.NotConservative | benchmarks/stats.py:38-44 | 11 and 27 degrees of freedom get less than the true value, 11 even less than 15 |
| Stats.ShortTableFalls | benchmarks/bench_writes.py:131-136 | the write benchmark's table never rises, and gives the smaller value exactly at 15, 20 and 25 |
| Stats.MarginSquared | benchmarks/stats.py:34-47 | the squared margin is t^2 times the sample variance over n, for either table |
| Stats.SummaryIs | benchmarks/stats.py:45-64 | the interval lies symmetrically around the mean, with the margin as half width, none for one sample |
| Stats.SummaryPercentiles | benchmarks/stats.py:55-64 | p50, p95 and p99 are the samples at those positions |
| Stats.SummaryIsOrdered | benchmarks/stats.py:29-64 | for either table the interval contains the mean, the mean is in range, and p50 <= p95 <= p99 |

## Left out

- AES-GCM, nonces, key handling and JSON: an abstract cipher and serializer with `decrypt(encrypt(x)) = x` and `deserialize(serialize(x)) = x`; the nonce a call draws is a parameter. A blob that fails to decrypt is modelled, bytes that decrypt but fail to parse are not.
- Python's `hash`: an arbitrary function of row seed and key. Python's `int()` on record fields: an arbitrary function with three outcomes, a number, a caught error, or an overflow.
- Python values are Null, integers, text or a float infinity; other floats, equality across Python number types and unhashable key components are not modelled.
- Floating point: the SCADS score is an exact integer (times 100; distinct scores are at least 2 apart), statistics are real numbers with a square root function as parameter; `hit_rate` is left out.
- `_region` in ARC and TinyLFU and the values in `_RefLRU._od`: written, never read by a decision.
- `_RefLFU` and the cachetools, Redis, pandas, DuckDB and SQL adapters: no further laws promised, or wrappers over libraries that are not part of this model.
- `build_time_s`, `memory_bytes`, timing loops, figures, tables and result files: measurement and I/O.
- Dataset loaders, log replayer, workload generators: I/O and randomness; the random choices of the write loops are parameters.
- Threads: the code has no locking protocol to model.
- The statistics take the sorted sample as given; the library sort is not modelled.
- ARC's evolution under pins is proved safe but not related to DBL(2c), since a pinned oldest key is skipped.
