// The clock form of LRU refines a list form: kept in recency order, the cache
// is a move-to-end list that spares graced keys. Where it meets the plain LRU,
// and exactly when it does not.
module FrameOrder {
  import opened Types
  import opened KeyLists
  import opened LruStack
  import opened FrameSpec
  import opened FrameGrace

  /** Keys from least to most recently used, and which of them are graced. */
  datatype LruList = LruList(capacity: nat, list: seq<ChunkKey>, graced: set<ChunkKey>)

  datatype ListStep = ListStep(lru: LruList, raised: bool)

  function ListGet(l: LruList, k: ChunkKey): LruList {
    if k in l.list then l.(list := Touch(l.list, k), graced := l.graced - {k}) else l
  }

  /** The first unpinned key without grace, or else the first unpinned key. */
  function ListVictim(l: LruList, pinned: set<ChunkKey>): Option<ChunkKey> {
    var v := Victim(l.list, pinned + l.graced);
    if v.Some? then v else Victim(l.list, pinned)
  }

  function ListPut(l: LruList, pinned: set<ChunkKey>, k: ChunkKey): ListStep {
    if k in l.list then ListStep(l.(list := Touch(l.list, k)), false)
    else if |l.list| < l.capacity then ListStep(l.(list := l.list + [k], graced := l.graced + {k}), false)
    else
      match ListVictim(l, pinned)
      case None => ListStep(l, true)
      case Some(v) =>
        ListStep(l.(list := Without(l.list, v) + [k], graced := l.graced * pinned + {k}), false)
  }

  ghost predicate Sorted(frame: map<ChunkKey, FrameVal>, list: seq<ChunkKey>) {
    && (forall x :: x in list ==> x in frame)
    && forall i, j :: 0 <= i < j < |list| ==> frame[list[i]].recency < frame[list[j]].recency
  }

  /** `l` lists the frames of `s` by recency. */
  ghost predicate Shows(s: Frames, l: LruList) {
    && Inv(s) && s.policy == LRU && l.capacity == s.capacity
    && Keys(l.list) == s.frame.Keys && Sorted(s.frame, l.list)
    && l.graced == Graced(s.frame)
  }

  lemma SortedDistinct(frame: map<ChunkKey, FrameVal>, list: seq<ChunkKey>)
    requires Sorted(frame, list)
    ensures Distinct(list)
  {
  }

  lemma SameSize(s: Frames, l: LruList)
    requires Shows(s, l)
    ensures |l.list| == |s.order|
  {
    SortedDistinct(s.frame, l.list);
    DistinctSize(l.list);
    DistinctSize(s.order);
  }

  lemma SortedWithout(frame: map<ChunkKey, FrameVal>, list: seq<ChunkKey>, k: ChunkKey)
    requires Sorted(frame, list)
    ensures Sorted(frame, Without(list, k))
  {
    var w := Without(list, k);
    forall i, j | 0 <= i < j < |w|
      ensures frame[w[i]].recency < frame[w[j]].recency
    {
      var i', j' := WithoutOrder(list, k, i, j);
    }
  }

  /** The newest stamp belongs at the end. */
  lemma AppendSorted(frame: map<ChunkKey, FrameVal>, clock: nat, list: seq<ChunkKey>, k: ChunkKey,
                     after: map<ChunkKey, FrameVal>)
    requires Sorted(frame, list) && Timed(frame, clock)
    requires k in after && after[k].recency == clock + 1
    requires forall x :: x in list ==> x in after && after[x].recency == frame[x].recency
    ensures Sorted(after, list + [k])
  {
    assert forall i :: 0 <= i < |list| ==> list[i] in list;
  }

  /** Re-stamping a frame with the newest recency moves its key to the end. */
  lemma StampSorted(frame: map<ChunkKey, FrameVal>, clock: nat, list: seq<ChunkKey>, k: ChunkKey,
                    after: map<ChunkKey, FrameVal>)
    requires Sorted(frame, list) && Timed(frame, clock)
    requires k in after && after[k].recency == clock + 1
    requires forall x :: x in Without(list, k) ==> x in after && after[x].recency == frame[x].recency
    ensures Sorted(after, Touch(list, k))
  {
    SortedWithout(frame, list, k);
    AppendSorted(frame, clock, Without(list, k), k, after);
  }

  lemma InsertShows(s: Frames, list: seq<ChunkKey>, k: ChunkKey, f: FrameVal)
    requires Sorted(s.frame, list) && Keys(list) == s.frame.Keys && Timed(s.frame, s.clock)
    requires k !in s.frame && f.recency == s.clock + 1 && f.grace
    ensures Sorted(s.frame[k := f], list + [k])
    ensures Keys(list + [k]) == s.frame[k := f].Keys
    ensures Graced(s.frame[k := f]) == Graced(s.frame) + {k}
  {
    assert forall x :: x in list ==> x in Keys(list);
    AppendSorted(s.frame, s.clock, list, k, s.frame[k := f]);
  }

  lemma GracedUpdate(frame: map<ChunkKey, FrameVal>, k: ChunkKey, f: FrameVal)
    ensures Graced(frame[k := f]) == if f.grace then Graced(frame) + {k} else Graced(frame) - {k}
  {
  }

  lemma GetShows(s: Frames, l: LruList, k: ChunkKey, region: Value)
    requires Shows(s, l)
    ensures Shows(Get(s, k, region), ListGet(l, k))
  {
    GetStep(s, k, region);
    assert k in l.list <==> k in Keys(l.list);
    if k in l.list {
      var r := Get(s, k, region);
      StampSorted(s.frame, s.clock, l.list, k, r.frame);
      assert Keys(Touch(l.list, k)) == Keys(l.list);
      GracedUpdate(s.frame, k, r.frame[k]);
    }
  }

  lemma PutResidentShows(s: Frames, l: LruList, pinned: set<ChunkKey>, k: ChunkKey, region: Value)
    requires Shows(s, l) && k in s.frame
    ensures Shows(Put(s, pinned, k, region).frames, ListPut(l, pinned, k).lru)
  {
    PutResidentStep(s, pinned, k, region);
    var r := Put(s, pinned, k, region).frames;
    assert k in Keys(l.list);
    StampSorted(s.frame, s.clock, l.list, k, r.frame);
    assert Keys(Touch(l.list, k)) == Keys(l.list);
    GracedUpdate(s.frame, k, r.frame[k]);
    assert Graced(r.frame) == Graced(s.frame);
  }

  /** In recency order the first eligible key is the victim. */
  lemma ListVictimIsVictim(s: Frames, l: LruList, pinned: set<ChunkKey>)
    requires Shows(s, l) && ListVictim(l, pinned).Some?
    ensures IsVictim(LRU, s.frame, pinned, ListVictim(l, pinned).value)
  {
    var spared := if Victim(l.list, pinned + l.graced).Some? then pinned + l.graced else pinned;
    var i := VictimIsOldest(l.list, spared);
    var v := l.list[i];
    assert forall x :: x in s.frame <==> x in Keys(l.list);
    forall x | x in s.frame && x !in pinned && (s.frame[x].grace ==> s.frame[v].grace)
      ensures s.frame[v].recency <= s.frame[x].recency
    {
      assert x in Keys(l.list);
      var j :| 0 <= j < |l.list| && l.list[j] == x;
      assert x !in spared;
      assert j >= i;
    }
  }

  lemma NoListVictim(l: LruList, pinned: set<ChunkKey>)
    ensures ListVictim(l, pinned).None? <==> forall x :: x in l.list ==> x in pinned
  {
  }

  lemma PutEvictsShows(s: Frames, l: LruList, pinned: set<ChunkKey>, k: ChunkKey, region: Value)
    requires Shows(s, l) && k !in s.frame && |s.order| >= s.capacity
    requires Evictable(s.frame, pinned)
    ensures ListVictim(l, pinned).Some?
    ensures Shows(Put(s, pinned, k, region).frames, ListPut(l, pinned, k).lru)
  {
    var x :| x in s.frame && x !in pinned;
    assert x in Keys(l.list);
    NoListVictim(l, pinned);
    SameSize(s, l);
    var v, after := PutEvicts(s, pinned, k, region);
    ListVictimIsVictim(s, l, pinned);
    VictimIsUnique(LRU, s.frame, s.clock, pinned, v, ListVictim(l, pinned).value);
    assert k !in Keys(l.list);
    var f := Newcomer(region, s.clock + 1);
    EvictSorted(s.frame, s.clock, l.list, pinned, v, after, k, f);
    EvictGraced(s.frame, pinned, v, after, k, f);
  }

  lemma EvictSorted(frame: map<ChunkKey, FrameVal>, clock: nat, list: seq<ChunkKey>, pinned: set<ChunkKey>,
                    v: ChunkKey, after: map<ChunkKey, FrameVal>, k: ChunkKey, f: FrameVal)
    requires Sorted(frame, list) && Keys(list) == frame.Keys && Timed(frame, clock)
    requires k !in list && Evicted(frame, pinned, v, after) && f.recency == clock + 1
    ensures Sorted(after[k := f], Without(list, v) + [k])
    ensures Keys(Without(list, v) + [k]) == after[k := f].Keys
  {
    SortedWithout(frame, list, v);
    WithoutKeys(list, v);
    forall x | x in Without(list, v)
      ensures x in after && after[x].recency == frame[x].recency
    {
      assert x in Keys(Without(list, v));
    }
    AppendSorted(frame, clock, Without(list, v), k, after[k := f]);
    assert Keys(Without(list, v) + [k]) == Keys(Without(list, v)) + {k};
  }

  lemma EvictGraced(frame: map<ChunkKey, FrameVal>, pinned: set<ChunkKey>, v: ChunkKey,
                    after: map<ChunkKey, FrameVal>, k: ChunkKey, f: FrameVal)
    requires Evicted(frame, pinned, v, after) && v !in pinned && k !in frame && f.grace
    ensures Graced(after[k := f]) == Graced(frame) * pinned + {k}
  {
  }

  lemma PutInsertShows(s: Frames, l: LruList, pinned: set<ChunkKey>, k: ChunkKey, region: Value)
    requires Shows(s, l) && k !in s.frame && |s.order| < s.capacity
    ensures Shows(Put(s, pinned, k, region).frames, ListPut(l, pinned, k).lru)
  {
    PutWithRoom(s, pinned, k, region);
    SameSize(s, l);
    assert k !in Keys(l.list);
    InsertShows(s, l.list, k, Newcomer(region, s.clock + 1));
  }

  /** One put of the clock form is one put of the list form, raise included. */
  lemma PutShows(s: Frames, l: LruList, pinned: set<ChunkKey>, k: ChunkKey, region: Value)
    requires Shows(s, l)
    ensures Shows(Put(s, pinned, k, region).frames, ListPut(l, pinned, k).lru)
    ensures Put(s, pinned, k, region).raised == ListPut(l, pinned, k).raised
  {
    assert k in l.list <==> k in Keys(l.list);
    if k in s.frame {
      PutResidentShows(s, l, pinned, k, region);
    } else if |s.order| < s.capacity {
      PutInsertShows(s, l, pinned, k, region);
      SameSize(s, l);
    } else if Evictable(s.frame, pinned) {
      PutEvictsShows(s, l, pinned, k, region);
      SameSize(s, l);
      var _, _ := PutEvicts(s, pinned, k, region);
    } else {
      PutRaisesShows(s, l, pinned, k, region);
    }
  }

  lemma PutRaisesShows(s: Frames, l: LruList, pinned: set<ChunkKey>, k: ChunkKey, region: Value)
    requires Shows(s, l) && k !in s.frame && |s.order| >= s.capacity
    requires !Evictable(s.frame, pinned)
    ensures Shows(Put(s, pinned, k, region).frames, ListPut(l, pinned, k).lru)
    ensures Put(s, pinned, k, region).raised && ListPut(l, pinned, k).raised
  {
    SameSize(s, l);
    NoListVictim(l, pinned);
    assert forall x :: x in l.list <==> x in Keys(l.list);
    PutRaises(s, pinned, k, region);
  }

  /******* Runs with pins *******/

  datatype ListCache = ListCache(lru: LruList, pinned: set<ChunkKey>)

  function ListExec(s: ListCache, op: Op): ListCache {
    match op
    case DoGet(k, _) => s.(lru := ListGet(s.lru, k))
    case DoPut(k, _) => s.(lru := ListPut(s.lru, s.pinned, k).lru)
    case DoPin(k) => s.(pinned := s.pinned + {k})
    case DoUnpin(k) => s.(pinned := s.pinned - {k})
  }

  function ListRun(s: ListCache, ops: seq<Op>): ListCache
    decreases |ops|
  {
    if ops == [] then s else ListRun(ListExec(s, ops[0]), ops[1..])
  }

  /** Every run of `LRUCache` is the run of the list. */
  lemma {:induction false} ClockRefinesList(s: Cache, t: ListCache, ops: seq<Op>)
    requires Shows(s.frames, t.lru) && s.pinned == t.pinned
    ensures Shows(Run(s, ops).frames, ListRun(t, ops).lru)
    ensures Run(s, ops).pinned == ListRun(t, ops).pinned
    decreases |ops|
  {
    if ops != [] {
      var op := ops[0];
      ExecStep(s, op);
      if op.DoGet? {
        GetShows(s.frames, t.lru, op.k, op.region);
      } else if op.DoPut? {
        PutShows(s.frames, t.lru, s.pinned, op.k, op.region);
      }
      ClockRefinesList(Exec(s, op), ListExec(t, op), ops[1..]);
    }
  }

  /******* Against the reference LRU *******/

  function ListRequest(l: LruList, k: ChunkKey): LruList {
    if k in l.list then ListGet(l, k) else ListPut(l, {}, k).lru
  }

  function ListRequests(c: nat, reqs: seq<ChunkKey>): LruList {
    if reqs == [] then LruList(c, [], {})
    else ListRequest(ListRequests(c, reqs[..|reqs| - 1]), reqs[|reqs| - 1])
  }

  /** No eviction, or one whose head is not graced, or one where all are. */
  predicate SameVictim(l: LruList, k: ChunkKey) {
    || k in l.list
    || |l.list| < l.capacity
    || (l.list != [] && l.list[0] !in l.graced)
    || forall x :: x in l.list ==> x in l.graced
  }

  /** One request agrees with the reference LRU exactly when grace does not
      change the victim. */
  lemma AgreesIff(l: LruList, k: ChunkKey)
    requires 1 <= l.capacity && |l.list| <= l.capacity && Distinct(l.list)
    ensures ListRequest(l, k).list == LruRequest(l.list, k, l.capacity) <==> SameVictim(l, k)
  {
    if k !in l.list && |l.list| >= l.capacity {
      var spared := if Victim(l.list, {} + l.graced).Some? then {} + l.graced else {};
      var i := VictimIsOldest(l.list, spared);
      WithoutAt(l.list, i);
      var r := ListRequest(l, k).list;
      assert r == l.list[..i] + l.list[i + 1..] + [k];
      assert LruRequest(l.list, k, l.capacity) == l.list[1..] + [k];
      if i > 0 {
        assert r[0] == l.list[0];
        assert (l.list[1..] + [k])[0] != l.list[0];
      }
    }
  }

  lemma ServeShows(s: Frames, l: LruList, q: Request)
    requires Shows(s, l)
    ensures Shows(Serve(s, q), ListRequest(l, q.k))
  {
    assert q.k in l.list <==> q.k in Keys(l.list);
    GetShows(s, l, q.k, q.queryRegion);
    if q.k !in s.frame {
      PutShows(Get(s, q.k, q.queryRegion), l, {}, q.k, q.region);
    }
  }

  /** A pin-free run of `LRUCache` is the run of the list. */
  lemma {:induction false} ServeRefinesList(c: nat, reqs: seq<Request>)
    requires 1 <= c
    ensures Shows(ServeAll(Empty(LRU, c), reqs), ListRequests(c, KeysOf(reqs)))
  {
    if reqs != [] {
      var n := |reqs| - 1;
      ServeRefinesList(c, reqs[..n]);
      assert KeysOf(reqs)[..n] == KeysOf(reqs[..n]);
      ServeShows(ServeAll(Empty(LRU, c), reqs[..n]), ListRequests(c, KeysOf(reqs[..n])), reqs[n]);
    }
  }

  function KeysOf(reqs: seq<Request>): seq<ChunkKey> {
    seq(|reqs|, i requires 0 <= i < |reqs| => reqs[i].k)
  }

  /** The lists agree after every request. */
  predicate AgreesThroughout(c: nat, reqs: seq<ChunkKey>) {
    reqs == [] ||
    (AgreesThroughout(c, reqs[..|reqs| - 1]) && ListRequests(c, reqs).list == LruRun(reqs, c))
  }

  /** Grace changes no victim. */
  predicate GraceIdle(c: nat, reqs: seq<ChunkKey>) {
    reqs == [] ||
    (GraceIdle(c, reqs[..|reqs| - 1]) &&
     SameVictim(ListRequests(c, reqs[..|reqs| - 1]), reqs[|reqs| - 1]))
  }

  /** Over a pin-free run the list stays equal to the reference LRU, hits and
      residents, exactly when no eviction has its victim changed by grace. */
  lemma {:induction false} RunAgreesIff(c: nat, reqs: seq<ChunkKey>)
    requires 1 <= c
    ensures AgreesThroughout(c, reqs) <==> GraceIdle(c, reqs)
    ensures AgreesThroughout(c, reqs) ==> ListRequests(c, reqs).list == LruRun(reqs, c)
    ensures AgreesThroughout(c, reqs) ==> ListHits(c, reqs) == Hits(reqs, c)
  {
    if reqs != [] {
      var before, k := reqs[..|reqs| - 1], reqs[|reqs| - 1];
      RunAgreesIff(c, before);
      var l := ListRequests(c, before);
      ListCapacity(c, before);
      if l.list == LruRun(before, c) {
        LruIsNewest(before, c);
        RecencyKeys(before);
        AgreesIff(l, k);
      }
    }
  }

  /** `LRUCache` itself: its residents are those of the reference LRU after every
      request. */
  ghost predicate ResidentsAgree(c: nat, reqs: seq<Request>)
    requires 1 <= c
  {
    && ServeAll(Empty(LRU, c), reqs).frame.Keys == Keys(LruRun(KeysOf(reqs), c))
    && (reqs == [] || ResidentsAgree(c, reqs[..|reqs| - 1]))
  }

  /** Its hits. */
  ghost function FrameHits(c: nat, reqs: seq<Request>): nat
    requires 1 <= c
  {
    if reqs == [] then 0
    else
      var before := reqs[..|reqs| - 1];
      FrameHits(c, before) + if reqs[|reqs| - 1].k in ServeAll(Empty(LRU, c), before).frame then 1 else 0
  }

  /** Where the lists disagree after a request, so do the residents. */
  lemma OtherVictimShows(l: LruList, k: ChunkKey)
    requires 1 <= l.capacity && |l.list| <= l.capacity && Distinct(l.list) && !SameVictim(l, k)
    ensures Keys(ListRequest(l, k).list) != Keys(LruRequest(l.list, k, l.capacity))
  {
    var spared := if Victim(l.list, {} + l.graced).Some? then {} + l.graced else {};
    var i := VictimIsOldest(l.list, spared);
    AgreesIff(l, k);
    WithoutAt(l.list, i);
    WithoutAt(l.list, 0);
    assert l.list[0] in Keys(ListRequest(l, k).list);
    assert l.list[0] !in Keys(LruRequest(l.list, k, l.capacity));
  }

  lemma KeysOfSnoc(reqs: seq<Request>)
    requires reqs != []
    ensures KeysOf(reqs)[..|reqs| - 1] == KeysOf(reqs[..|reqs| - 1])
  {
  }

  lemma {:induction false} SameHits(c: nat, reqs: seq<Request>)
    requires 1 <= c && ResidentsAgree(c, reqs)
    ensures FrameHits(c, reqs) == Hits(KeysOf(reqs), c)
  {
    if reqs != [] {
      var before, k := reqs[..|reqs| - 1], reqs[|reqs| - 1].k;
      KeysOfSnoc(reqs);
      SameHits(c, before);
      assert k in ServeAll(Empty(LRU, c), before).frame <==> k in Keys(LruRun(KeysOf(before), c));
    }
  }

  lemma {:induction false} IdleKeepsResidents(c: nat, reqs: seq<Request>)
    requires 1 <= c && GraceIdle(c, KeysOf(reqs))
    ensures ResidentsAgree(c, reqs)
  {
    ServeRefinesList(c, reqs);
    RunAgreesIff(c, KeysOf(reqs));
    if reqs != [] {
      KeysOfSnoc(reqs);
      IdleKeepsResidents(c, reqs[..|reqs| - 1]);
    }
  }

  /** Equal lists before a request and equal residents after it: grace was idle. */
  lemma LastIsIdle(c: nat, before: seq<ChunkKey>, k: ChunkKey)
    requires 1 <= c && ListRequests(c, before).list == LruRun(before, c)
    requires Keys(ListRequest(ListRequests(c, before), k).list) == Keys(LruRequest(LruRun(before, c), k, c))
    ensures SameVictim(ListRequests(c, before), k)
  {
    var l := ListRequests(c, before);
    ListCapacity(c, before);
    LruIsNewest(before, c);
    RecencyKeys(before);
    if !SameVictim(l, k) {
      OtherVictimShows(l, k);
    }
  }

  lemma {:induction false} ResidentsShowIdle(c: nat, reqs: seq<Request>)
    requires 1 <= c && ResidentsAgree(c, reqs)
    ensures GraceIdle(c, KeysOf(reqs))
  {
    if reqs != [] {
      var before := reqs[..|reqs| - 1];
      KeysOfSnoc(reqs);
      ResidentsShowIdle(c, before);
      RunAgreesIff(c, KeysOf(before));
      ServeRefinesList(c, reqs);
      LastIsIdle(c, KeysOf(before), reqs[|reqs| - 1].k);
    }
  }

  /** `LRUCache` holds what the reference LRU holds, after every request of a
      pin-free run, exactly when grace changes no victim; then its hits are those
      of the reference too. */
  lemma CoreLruMeetsReference(c: nat, reqs: seq<Request>)
    requires 1 <= c
    ensures ResidentsAgree(c, reqs) <==> GraceIdle(c, KeysOf(reqs))
    ensures ResidentsAgree(c, reqs) ==> FrameHits(c, reqs) == Hits(KeysOf(reqs), c)
  {
    if GraceIdle(c, KeysOf(reqs)) {
      IdleKeepsResidents(c, reqs);
    }
    if ResidentsAgree(c, reqs) {
      ResidentsShowIdle(c, reqs);
      SameHits(c, reqs);
    }
  }

  /** Where grace is idle at both capacities, the larger `LRUCache` hits no less. */
  lemma CoreHitsMonotone(c: nat, c': nat, reqs: seq<Request>)
    requires 1 <= c <= c' && GraceIdle(c, KeysOf(reqs)) && GraceIdle(c', KeysOf(reqs))
    ensures FrameHits(c, reqs) <= FrameHits(c', reqs)
  {
    CoreLruMeetsReference(c, reqs);
    CoreLruMeetsReference(c', reqs);
    HitsMonotone(KeysOf(reqs), c, c');
  }

  lemma {:induction false} FrameHitsAreListHits(c: nat, reqs: seq<Request>)
    requires 1 <= c
    ensures FrameHits(c, reqs) == ListHits(c, KeysOf(reqs))
  {
    if reqs != [] {
      var before, k := reqs[..|reqs| - 1], reqs[|reqs| - 1].k;
      KeysOfSnoc(reqs);
      FrameHitsAreListHits(c, before);
      ServeRefinesList(c, before);
      assert k in ListRequests(c, KeysOf(before)).list <==> k in Keys(ListRequests(c, KeysOf(before)).list);
    }
  }

  /** In general it may hit less. On requests a, b, c, c, d, c capacity 2 gives two
      hits and capacity 3 one, since grace then evicts the accessed c. */
  lemma MoreRoomFewerHits(a: ChunkKey, b: ChunkKey, c: ChunkKey, d: ChunkKey, region: Value)
    requires a != b && a != c && a != d && b != c && b != d && c != d
    ensures
      var reqs := Requests([a, b, c, c, d, c], region);
      FrameHits(2, reqs) == 2 && FrameHits(3, reqs) == 1
  {
    var r := Example(a, b, c, d);
    KeysOfRequests(r[4], region);
    FrameHitsAreListHits(2, Requests(r[4], region));
    FrameHitsAreListHits(3, Requests(r[4], region));
    HitsInTwo(a, b, c, d, r);
    HitsInThree(a, b, c, d, r);
  }

  lemma Example(a: ChunkKey, b: ChunkKey, c: ChunkKey, d: ChunkKey) returns (r: seq<seq<ChunkKey>>)
    requires a != b && a != c && a != d && b != c && b != d && c != d
    ensures Prefixes(a, b, c, d, r) && r[4] == [a, b, c, c, d, c]
  {
    r := [[a, b], [a, b] + [c], [a, b] + [c] + [c], [a, b] + [c] + [c] + [d], [a, b] + [c] + [c] + [d] + [c]];
  }

  lemma KeysOfRequests(keys: seq<ChunkKey>, region: Value)
    ensures KeysOf(Requests(keys, region)) == keys
  {
  }

  function Requests(keys: seq<ChunkKey>, region: Value): seq<Request> {
    seq(|keys|, i requires 0 <= i < |keys| => Request(keys[i], region, region))
  }

  /** The list and the hits after requests `reqs`. */
  ghost predicate At(c: nat, reqs: seq<ChunkKey>, list: seq<ChunkKey>, graced: set<ChunkKey>, hits: nat) {
    ListRequests(c, reqs) == LruList(c, list, graced) && ListHits(c, reqs) == hits && Distinct(list)
  }

  lemma NextRequest(c: nat, before: seq<ChunkKey>, k: ChunkKey)
    ensures ListRequests(c, before + [k]) == ListRequest(ListRequests(c, before), k)
    ensures ListHits(c, before + [k]) == ListHits(c, before) + if k in ListRequests(c, before).list then 1 else 0
  {
    assert (before + [k])[..|before|] == before;
  }

  lemma Appended(c: nat, before: seq<ChunkKey>, list: seq<ChunkKey>, graced: set<ChunkKey>, hits: nat, k: ChunkKey)
    requires At(c, before, list, graced, hits) && k !in list && |list| < c
    ensures At(c, before + [k], list + [k], graced + {k}, hits)
  {
    NextRequest(c, before, k);
  }

  /** A hit on the newest key ends its grace and moves nothing. */
  lemma NewestHit(c: nat, before: seq<ChunkKey>, init: seq<ChunkKey>, graced: set<ChunkKey>, hits: nat, k: ChunkKey)
    requires At(c, before, init + [k], graced, hits)
    ensures At(c, before + [k], init + [k], graced - {k}, hits + 1)
  {
    NextRequest(c, before, k);
    WithoutAt(init + [k], |init|);
    assert (init + [k])[..|init|] + (init + [k])[|init| + 1..] == init;
  }

  /** A miss at a full list whose victim is the oldest key. */
  lemma OldestGoes(c: nat, before: seq<ChunkKey>, x: ChunkKey, rest: seq<ChunkKey>, graced: set<ChunkKey>, hits: nat,
                   k: ChunkKey)
    requires At(c, before, [x] + rest, graced, hits) && k !in [x] + rest && |rest| + 1 == c
    requires x !in graced || forall y :: y in rest ==> y in graced
    ensures At(c, before + [k], rest + [k], {k}, hits)
  {
    var l := LruList(c, [x] + rest, graced);
    NextRequest(c, before, k);
    AgreesIff(l, k);
    assert ([x] + rest + [k])[1..] == rest + [k];
    assert ListVictim(l, {}).Some?;
    assert graced * {} + {k} == {k};
  }

  /** A miss at a full list in which only the newest key is out of its grace. */
  lemma NewestGoes(c: nat, before: seq<ChunkKey>, init: seq<ChunkKey>, x: ChunkKey, graced: set<ChunkKey>, hits: nat,
                   k: ChunkKey)
    requires At(c, before, init + [x], graced, hits) && k !in init + [x] && |init| + 1 == c
    requires x !in graced && forall y :: y in init ==> y in graced
    ensures At(c, before + [k], init + [k], {k}, hits)
  {
    var list := init + [x];
    NextRequest(c, before, k);
    var i := VictimIsOldest(list, {} + graced);
    assert i == |init|;
    WithoutAt(list, i);
    assert list[..i] + list[i + 1..] == init;
    assert graced * {} + {k} == {k};
  }

  /** The first two requests find room. */
  lemma TwoNew(n: nat, a: ChunkKey, b: ChunkKey)
    requires n >= 2 && a != b
    ensures At(n, [a, b], [a, b], {a, b}, 0)
  {
    OneNew(n, a);
    Appended(n, [a], [a], {a}, 0, b);
    assert [a] + [b] == [a, b];
  }

  lemma OneNew(n: nat, a: ChunkKey)
    requires n >= 1
    ensures At(n, [a], [a], {a}, 0)
  {
    assert [a][..0] == [];
  }

  /** The prefixes of the example. */
  ghost predicate Prefixes(a: ChunkKey, b: ChunkKey, c: ChunkKey, d: ChunkKey, r: seq<seq<ChunkKey>>) {
    && a != b && a != c && a != d && b != c && b != d && c != d && |r| == 5
    && r[0] == [a, b] && r[1] == r[0] + [c] && r[2] == r[1] + [c] && r[3] == r[2] + [d] && r[4] == r[3] + [c]
  }

  lemma HitsInTwo(a: ChunkKey, b: ChunkKey, c: ChunkKey, d: ChunkKey, r: seq<seq<ChunkKey>>)
    requires Prefixes(a, b, c, d, r)
    ensures ListHits(2, r[4]) == 2
  {
    TwoNew(2, a, b);
    assert [a] + [b] == [a, b];
    OldestGoes(2, r[0], a, [b], {a, b}, 0, c);
    NewestHit(2, r[1], [b], {c}, 0, c);
    assert [b] + [c] == [b, c];
    OldestGoes(2, r[2], b, [c], {c} - {c}, 1, d);
    NextRequest(2, r[3], c);
  }

  lemma HitsInThree(a: ChunkKey, b: ChunkKey, c: ChunkKey, d: ChunkKey, r: seq<seq<ChunkKey>>)
    requires Prefixes(a, b, c, d, r)
    ensures ListHits(3, r[4]) == 1
  {
    TwoNew(3, a, b);
    Appended(3, r[0], [a, b], {a, b}, 0, c);
    NewestHit(3, r[1], [a, b], {a, b} + {c}, 0, c);
    NewestGoes(3, r[2], [a, b], c, {a, b} + {c} - {c}, 1, d);
    NextRequest(3, r[3], c);
  }

  function ListHits(c: nat, reqs: seq<ChunkKey>): nat {
    if reqs == [] then 0
    else
      var before := reqs[..|reqs| - 1];
      ListHits(c, before) + if reqs[|reqs| - 1] in ListRequests(c, before).list then 1 else 0
  }

  lemma ListCapacity(c: nat, reqs: seq<ChunkKey>)
    ensures ListRequests(c, reqs).capacity == c
  {
  }

  lemma ListSnoc(c: nat, reqs: seq<ChunkKey>, k: ChunkKey)
    ensures ListRequests(c, reqs + [k]) == ListRequest(ListRequests(c, reqs), k)
    ensures LruRun(reqs + [k], c) == LruRequest(LruRun(reqs, c), k, c)
  {
    assert (reqs + [k])[..|reqs|] == reqs;
  }

  /** Grace makes the difference: capacity 2, requests a, b, a, c. */
  lemma GraceBreaksLru(a: ChunkKey, b: ChunkKey, c: ChunkKey)
    requires a != b && b != c && c != a
    ensures ListRequests(2, [a, b, a, c]).list == [b, c]
    ensures LruRun([a, b, a, c], 2) == [a, c]
  {
    ListSnoc(2, [a, b, a], c);
    assert [a, b, a] + [c] == [a, b, a, c];
    ThreeRequests(a, b);
    OldestUngraced(a, b);
    WithoutAt([b, a], 1);
    assert [b, a][..1] + [b, a][2..] + [c] == [b, c];
    assert ([b, a] + [c])[1..] == [a, c];
  }

  lemma ThreeRequests(a: ChunkKey, b: ChunkKey)
    requires a != b
    ensures ListRequests(2, [a, b, a]) == LruList(2, [b, a], {b})
    ensures LruRun([a, b, a], 2) == [b, a]
  {
    ListSnoc(2, [a, b], a);
    assert [a, b] + [a] == [a, b, a];
    TwoRequests(a, b);
    TouchOlder(a, b);
    assert {a, b} - {a} == {b};
  }

  lemma TouchOlder(a: ChunkKey, b: ChunkKey)
    requires a != b
    ensures Touch([a, b], a) == [b, a]
  {
    WithoutAt([a, b], 0);
    assert [a, b][..0] + [a, b][1..] == [b];
  }

  lemma TwoRequests(a: ChunkKey, b: ChunkKey)
    requires a != b
    ensures ListRequests(2, [a, b]) == LruList(2, [a, b], {a, b})
    ensures LruRun([a, b], 2) == [a, b]
  {
    ListSnoc(2, [], a);
    ListSnoc(2, [a], b);
    assert [] + [a] == [a] && [a] + [b] == [a, b];
  }

  lemma OldestUngraced(a: ChunkKey, b: ChunkKey)
    requires a != b
    ensures ListVictim(LruList(2, [b, a], {b}), {}) == Some(a)
  {
    assert [b, a][1..] == [a];
    assert Victim([a], {} + {b}) == Some(a);
  }
}
