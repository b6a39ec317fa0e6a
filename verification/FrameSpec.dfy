// The frame caches SCADS, LRU and LFU as functions on a table of frames. They
// differ only in the rank that picks the victim.
module FrameSpec {
  import opened Types
  import opened KeyLists

  datatype Policy = LRU | LFU | SCADS

  datatype FrameVal = FrameVal(region: Value, count: nat, lastQuery: Value, grace: bool, recency: nat)

  /** `order` is the dictionary's insertion order. */
  datatype Frames = Frames(policy: Policy, capacity: nat, clock: nat,
                           order: seq<ChunkKey>, frame: map<ChunkKey, FrameVal>)

  datatype Step = Step(frames: Frames, raised: bool)

  ghost predicate Shape(s: Frames) {
    1 <= s.capacity && |s.order| <= s.capacity && Distinct(s.order) && s.frame.Keys == Keys(s.order)
  }

  /** Recencies are past clock readings, and no two frames share one. */
  ghost predicate Timed(frame: map<ChunkKey, FrameVal>, clock: nat) {
    && (forall x {:trigger frame[x].recency} :: x in frame ==> frame[x].recency <= clock)
    && (forall x, y {:trigger frame[x].recency, frame[y].recency} ::
          x in frame && y in frame && x != y ==> frame[x].recency != frame[y].recency)
  }

  /** A frame that was accessed has no grace left. */
  ghost predicate Proven(frame: map<ChunkKey, FrameVal>) {
    forall x :: x in frame && frame[x].count >= 1 ==> !frame[x].grace
  }

  ghost predicate Inv(s: Frames) {
    Shape(s) && Timed(s.frame, s.clock) && Proven(s.frame)
  }

  function Empty(policy: Policy, capacity: nat): Frames {
    Frames(policy, capacity, 0, [], map[])
  }

  /** The SCADS score times 100: 0.6 * min(count / 10, 1) + 0.4 * (match ? 1 : 0.2). */
  function Score(f: FrameVal): nat {
    6 * (if f.count < 10 then f.count else 10) +
    if f.lastQuery != Null && f.lastQuery == f.region then 40 else 8
  }

  function Weight(policy: Policy, f: FrameVal): nat {
    match policy
    case LRU => 0
    case LFU => f.count
    case SCADS => Score(f)
  }

  /** Lexicographic on (weight, recency). */
  predicate Below(policy: Policy, f: FrameVal, g: FrameVal) {
    Weight(policy, f) < Weight(policy, g) ||
    (Weight(policy, f) == Weight(policy, g) && f.recency < g.recency)
  }

  /** Python's `min`: the first key of least rank. */
  function SelectVictim(s: Frames, pool: seq<ChunkKey>): (v: ChunkKey)
    requires pool != [] && forall x :: x in pool ==> x in s.frame
    ensures v in pool
  {
    var last := pool[|pool| - 1];
    if |pool| == 1 then last
    else
      var v := SelectVictim(s, pool[..|pool| - 1]);
      if Below(s.policy, s.frame[last], s.frame[v]) then last else v
  }

  lemma SelectNext(s: Frames, pool: seq<ChunkKey>, i: nat)
    requires 0 < i < |pool| && forall x :: x in pool ==> x in s.frame
    ensures
      var v := SelectVictim(s, pool[..i]);
      SelectVictim(s, pool[..i + 1]) == if Below(s.policy, s.frame[pool[i]], s.frame[v]) then pool[i] else v
  {
    assert pool[..i + 1][..i] == pool[..i];
  }

  /** The keys that are not pinned, in dictionary order. */
  function Candidates(order: seq<ChunkKey>, pinned: set<ChunkKey>): (r: seq<ChunkKey>)
    ensures forall x :: x in r ==> x in order
  {
    if order == [] then []
    else if order[0] in pinned then Candidates(order[1..], pinned)
    else [order[0]] + Candidates(order[1..], pinned)
  }

  function Graced(frame: map<ChunkKey, FrameVal>): set<ChunkKey> {
    set x | x in frame && frame[x].grace
  }

  /** Graced frames are spared while another candidate exists. */
  function Pool(s: Frames, pinned: set<ChunkKey>): (r: seq<ChunkKey>) {
    var candidates := Candidates(s.order, pinned);
    var nonGrace := Candidates(candidates, Graced(s.frame));
    if nonGrace != [] then nonGrace else candidates
  }

  /** The frames without the victim, the grace of the other candidates cleared. */
  function Spared(frame: map<ChunkKey, FrameVal>, pinned: set<ChunkKey>, v: ChunkKey): map<ChunkKey, FrameVal> {
    map x | x in frame && x != v :: if x in pinned then frame[x] else frame[x].(grace := false)
  }

  function Evict(s: Frames, pinned: set<ChunkKey>): (r: Step)
    requires s.frame.Keys == Keys(s.order)
  {
    if Candidates(s.order, pinned) == [] then Step(s, true)
    else
      var v := SelectVictim(s, Pool(s, pinned));
      Step(s.(order := Without(s.order, v), frame := Spared(s.frame, pinned, v)), false)
  }

  function Newcomer(region: Value, now: nat): FrameVal {
    FrameVal(region, 0, Null, true, now)
  }

  function Accessed(f: FrameVal, now: nat, queryRegion: Value): FrameVal {
    FrameVal(f.region, f.count + 1, queryRegion, false, now)
  }

  function Refreshed(f: FrameVal, now: nat, region: Value): FrameVal {
    f.(recency := now, region := if region != Null then region else f.region)
  }

  /** Add a frame as the dictionary's last entry. */
  function Insert(s: Frames, k: ChunkKey, f: FrameVal): Frames {
    s.(order := s.order + [k], frame := s.frame[k := f])
  }

  function Get(s: Frames, k: ChunkKey, queryRegion: Value): Frames {
    var now := s.clock + 1;
    if k in s.frame
    then s.(clock := now, frame := s.frame[k := Accessed(s.frame[k], now, queryRegion)])
    else s.(clock := now)
  }

  /** An absent key at time `s.clock`: evict at a full cache, then insert. */
  function PutNew(s: Frames, pinned: set<ChunkKey>, k: ChunkKey, region: Value): Step
    requires s.frame.Keys == Keys(s.order)
  {
    var room := if |s.order| >= s.capacity then Evict(s, pinned) else Step(s, false);
    if room.raised then room
    else Step(Insert(room.frames, k, Newcomer(region, s.clock)), false)
  }

  function Put(s: Frames, pinned: set<ChunkKey>, k: ChunkKey, region: Value): Step
    requires s.frame.Keys == Keys(s.order)
  {
    var now := s.clock + 1;
    if k in s.frame
    then Step(s.(clock := now, frame := s.frame[k := Refreshed(s.frame[k], now, region)]), false)
    else PutNew(s.(clock := now), pinned, k, region)
  }

  lemma GetUnfolds(s: Frames, k: ChunkKey, queryRegion: Value)
    ensures k in s.frame ==>
              Get(s, k, queryRegion) ==
              Frames(s.policy, s.capacity, s.clock + 1, s.order,
                     s.frame[k := Accessed(s.frame[k], s.clock + 1, queryRegion)])
    ensures k !in s.frame ==>
              Get(s, k, queryRegion) == Frames(s.policy, s.capacity, s.clock + 1, s.order, s.frame)
  {
  }

  /** `s1` is `s` after the clock's tick. */
  lemma PutUnfolds(s: Frames, s1: Frames, pinned: set<ChunkKey>, k: ChunkKey, region: Value)
    requires s.frame.Keys == Keys(s.order) && s1 == s.(clock := s.clock + 1)
    ensures k in s.frame ==>
              Put(s, pinned, k, region) ==
              Step(s1.(frame := s.frame[k := Refreshed(s.frame[k], s1.clock, region)]), false)
    ensures k !in s.frame ==> Put(s, pinned, k, region) == PutNew(s1, pinned, k, region)
  {
  }

  /******* One step *******/

  lemma {:induction false} CandidatesAre(order: seq<ChunkKey>, pinned: set<ChunkKey>)
    ensures forall x :: x in Candidates(order, pinned) <==> x in order && x !in pinned
    ensures Candidates(order, pinned) == [] <==> forall x :: x in order ==> x in pinned
  {
    if order != [] {
      CandidatesAre(order[1..], pinned);
      assert forall x :: x in order <==> x == order[0] || x in order[1..];
    }
  }

  lemma {:induction false} SelectIsLeast(s: Frames, pool: seq<ChunkKey>, x: ChunkKey)
    requires x in pool && forall y :: y in pool ==> y in s.frame
    ensures
      var f, g := s.frame[SelectVictim(s, pool)], s.frame[x];
      && Weight(s.policy, f) <= Weight(s.policy, g)
      && (Weight(s.policy, f) == Weight(s.policy, g) ==> f.recency <= g.recency)
  {
    var n := |pool| - 1;
    if n > 0 {
      assert pool == pool[..n] + [pool[n]];
      if x in pool[..n] {
        SelectIsLeast(s, pool[..n], x);
      }
    }
  }

  /** The victim is unpinned, graced only if every candidate is, and of those of
      its standing it has the least weight, among equals the least recency. */
  ghost predicate IsVictim(policy: Policy, frame: map<ChunkKey, FrameVal>, pinned: set<ChunkKey>, v: ChunkKey) {
    && v in frame && v !in pinned
    && (frame[v].grace ==> forall x :: x in frame && x !in pinned ==> frame[x].grace)
    && (forall x :: x in frame && x !in pinned && (frame[x].grace ==> frame[v].grace) ==>
          && Weight(policy, frame[v]) <= Weight(policy, frame[x])
          && (Weight(policy, frame[v]) == Weight(policy, frame[x]) ==> frame[v].recency <= frame[x].recency))
  }

  lemma PoolVictim(s: Frames, pinned: set<ChunkKey>)
    requires s.frame.Keys == Keys(s.order)
    requires Candidates(s.order, pinned) != []
    ensures IsVictim(s.policy, s.frame, pinned, SelectVictim(s, Pool(s, pinned)))
  {
    var candidates, pool := Candidates(s.order, pinned), Pool(s, pinned);
    var nonGrace := Candidates(candidates, Graced(s.frame));
    CandidatesAre(s.order, pinned);
    CandidatesAre(candidates, Graced(s.frame));
    var v := SelectVictim(s, pool);
    forall x | x in s.frame && x !in pinned
      ensures x in candidates
    {
      assert x in Keys(s.order);
    }
    if nonGrace == [] {
      forall x | x in candidates
        ensures s.frame[x].grace
      {
        assert x !in nonGrace;
      }
    }
    forall x | x in s.frame && x !in pinned && (s.frame[x].grace ==> s.frame[v].grace)
      ensures Weight(s.policy, s.frame[v]) <= Weight(s.policy, s.frame[x])
      ensures Weight(s.policy, s.frame[v]) == Weight(s.policy, s.frame[x]) ==>
                s.frame[v].recency <= s.frame[x].recency
    {
      assert x in pool;
      SelectIsLeast(s, pool, x);
    }
  }

  /** The victim is unique, since recencies are distinct. */
  lemma VictimIsUnique(policy: Policy, frame: map<ChunkKey, FrameVal>, clock: nat, pinned: set<ChunkKey>,
                       v: ChunkKey, w: ChunkKey)
    requires Timed(frame, clock)
    requires IsVictim(policy, frame, pinned, v) && IsVictim(policy, frame, pinned, w)
    ensures v == w
  {
  }

  lemma StampTimed(frame: map<ChunkKey, FrameVal>, clock: nat, k: ChunkKey, f: FrameVal)
    requires Timed(frame, clock) && f.recency == clock + 1
    ensures Timed(frame[k := f], clock + 1)
  {
  }

  lemma GetStep(s: Frames, k: ChunkKey, queryRegion: Value)
    requires Inv(s)
    ensures Inv(Get(s, k, queryRegion))
    ensures Get(s, k, queryRegion).order == s.order
    ensures Get(s, k, queryRegion).frame.Keys == s.frame.Keys
  {
    var r := Get(s, k, queryRegion);
    if k in s.frame {
      StampTimed(s.frame, s.clock, k, r.frame[k]);
    }
    assert r.frame.Keys == s.frame.Keys;
  }

  /** What `Spared` means, frame by frame. */
  ghost predicate Evicted(frame: map<ChunkKey, FrameVal>, pinned: set<ChunkKey>, v: ChunkKey,
                          after: map<ChunkKey, FrameVal>)
  {
    && v in frame && after.Keys == frame.Keys - {v}
    && forall x :: x in after ==> after[x] == if x in pinned then frame[x] else frame[x].(grace := false)
  }

  lemma EvictedIsSpared(frame: map<ChunkKey, FrameVal>, pinned: set<ChunkKey>, v: ChunkKey,
                        after: map<ChunkKey, FrameVal>)
    requires v in frame
    ensures Evicted(frame, pinned, v, after) <==> after == Spared(frame, pinned, v)
  {
    assert Spared(frame, pinned, v).Keys == frame.Keys - {v};
  }

  /** Some frame is not pinned. */
  ghost predicate Evictable(frame: map<ChunkKey, FrameVal>, pinned: set<ChunkKey>) {
    exists x :: x in frame && x !in pinned
  }

  lemma EvictChoice(s: Frames, pinned: set<ChunkKey>) returns (v: ChunkKey)
    requires Shape(s) && Evictable(s.frame, pinned)
    ensures IsVictim(s.policy, s.frame, pinned, v)
    ensures !Evict(s, pinned).raised && Dropped(s, pinned, v, Evict(s, pinned).frames)
  {
    var x :| x in s.frame && x !in pinned;
    assert x in Keys(s.order);
    CandidatesAre(s.order, pinned);
    PoolVictim(s, pinned);
    v := SelectVictim(s, Pool(s, pinned));
  }

  ghost predicate Dropped(s: Frames, pinned: set<ChunkKey>, v: ChunkKey, r: Frames) {
    && r.policy == s.policy && r.capacity == s.capacity && r.clock == s.clock
    && r.order == Without(s.order, v) && r.frame == Spared(s.frame, pinned, v)
  }

  lemma EvictedKeeps(frame: map<ChunkKey, FrameVal>, clock: nat, pinned: set<ChunkKey>, v: ChunkKey,
                     after: map<ChunkKey, FrameVal>)
    requires Timed(frame, clock) && Proven(frame) && Evicted(frame, pinned, v, after)
    ensures Timed(after, clock) && Proven(after)
  {
    assert forall x :: x in after ==> x in frame && after[x].recency == frame[x].recency;
  }

  lemma EvictRaises(s: Frames, pinned: set<ChunkKey>)
    requires Shape(s) && !Evictable(s.frame, pinned)
    ensures Evict(s, pinned) == Step(s, true)
  {
    CandidatesAre(s.order, pinned);
    assert forall x :: x in s.order ==> x in Keys(s.order);
  }

  /** Eviction frees one frame and keeps the rest of the invariant. */
  lemma DroppedKeeps(s: Frames, clock: nat, pinned: set<ChunkKey>, v: ChunkKey, r: Frames)
    requires Shape(s) && Timed(s.frame, clock) && Proven(s.frame)
    requires v in s.frame && Dropped(s, pinned, v, r)
    ensures Evicted(s.frame, pinned, v, r.frame)
    ensures Shape(r) && Timed(r.frame, clock) && Proven(r.frame)
    ensures |r.order| == |s.order| - 1
  {
    EvictedIsSpared(s.frame, pinned, v, r.frame);
    EvictedKeeps(s.frame, clock, pinned, v, r.frame);
    WithoutDistinct(s.order, v);
    assert v in Keys(s.order);
    assert Keys(r.order) == Keys(s.order) - {v};
  }

  ghost predicate PutOk(s: Frames, pinned: set<ChunkKey>, k: ChunkKey, region: Value, r: Step) {
    && Inv(r.frames) && r.frames.capacity == s.capacity && r.frames.policy == s.policy
    && (r.raised <==> k !in s.frame && |s.order| == s.capacity && !Evictable(s.frame, pinned))
    && (r.raised ==> r.frames == s.(clock := s.clock + 1))
    && (!r.raised ==> k in r.frames.frame)
    && (forall x :: x in s.frame && x in pinned ==> x in r.frames.frame)
    && |s.order| <= |r.frames.order|
  }

  lemma PutResidentStep(s: Frames, pinned: set<ChunkKey>, k: ChunkKey, region: Value)
    requires Inv(s) && k in s.frame
    ensures PutOk(s, pinned, k, region, Put(s, pinned, k, region))
  {
    var r := Put(s, pinned, k, region).frames;
    StampTimed(s.frame, s.clock, k, r.frame[k]);
    assert r.frame.Keys == s.frame.Keys;
  }

  lemma InsertStep(s: Frames, clock: nat, k: ChunkKey, f: FrameVal)
    requires Shape(s) && Timed(s.frame, clock) && Proven(s.frame)
    requires k !in s.frame && |s.order| < s.capacity
    requires s.clock == clock + 1 == f.recency && f.count == 0
    ensures Inv(Insert(s, k, f))
  {
    StampTimed(s.frame, clock, k, f);
    assert k !in Keys(s.order);
    assert Keys(s.order + [k]) == Keys(s.order) + {k};
  }

  lemma EvictRoom(s: Frames, clock: nat, pinned: set<ChunkKey>) returns (v: ChunkKey)
    requires Shape(s) && Timed(s.frame, clock) && Proven(s.frame)
    requires Evictable(s.frame, pinned)
    ensures IsVictim(s.policy, s.frame, pinned, v)
    ensures !Evict(s, pinned).raised
    ensures
      var r := Evict(s, pinned).frames;
      && r.policy == s.policy && r.capacity == s.capacity && r.clock == s.clock
      && Evicted(s.frame, pinned, v, r.frame)
      && Shape(r) && Timed(r.frame, clock) && Proven(r.frame)
      && |r.order| == |s.order| - 1
  {
    v := EvictChoice(s, pinned);
    DroppedKeeps(s, clock, pinned, v, Evict(s, pinned).frames);
  }

  /** An evicting put: one victim goes, the other candidates lose their grace,
      and the newcomer is graced. */
  lemma PutEvicts(s: Frames, pinned: set<ChunkKey>, k: ChunkKey, region: Value)
    returns (v: ChunkKey, after: map<ChunkKey, FrameVal>)
    requires Inv(s) && k !in s.frame && |s.order| >= s.capacity
    requires Evictable(s.frame, pinned)
    ensures IsVictim(s.policy, s.frame, pinned, v) && Evicted(s.frame, pinned, v, after)
    ensures
      var r := Put(s, pinned, k, region);
      && !r.raised && r.frames.policy == s.policy && r.frames.capacity == s.capacity
      && |r.frames.order| == s.capacity
      && r.frames.frame == after[k := Newcomer(region, s.clock + 1)]
    ensures Inv(Put(s, pinned, k, region).frames)
  {
    var s1 := s.(clock := s.clock + 1);
    v := EvictRoom(s1, s.clock, pinned);
    var room := Evict(s1, pinned).frames;
    after := room.frame;
    var f := Newcomer(region, s1.clock);
    InsertStep(room, s.clock, k, f);
    PutInserts(s, pinned, k, region, Insert(room, k, f));
  }

  /** Passing on what is known of the new state without unfolding the put. */
  lemma PutInserts(s: Frames, pinned: set<ChunkKey>, k: ChunkKey, region: Value, r: Frames)
    requires s.frame.Keys == Keys(s.order) && k !in s.frame && |s.order| >= s.capacity
    requires
      var room := Evict(s.(clock := s.clock + 1), pinned);
      !room.raised && r == Insert(room.frames, k, Newcomer(region, s.clock + 1))
    ensures Put(s, pinned, k, region) == Step(r, false)
  {
  }

  lemma PutRaises(s: Frames, pinned: set<ChunkKey>, k: ChunkKey, region: Value)
    requires Inv(s) && k !in s.frame && |s.order| >= s.capacity
    requires !Evictable(s.frame, pinned)
    ensures Put(s, pinned, k, region) == Step(s.(clock := s.clock + 1), true)
  {
    EvictRaises(s.(clock := s.clock + 1), pinned);
  }

  lemma PutWithRoom(s: Frames, pinned: set<ChunkKey>, k: ChunkKey, region: Value)
    requires Inv(s) && k !in s.frame && |s.order| < s.capacity
    ensures
      var r := Insert(s.(clock := s.clock + 1), k, Newcomer(region, s.clock + 1));
      Put(s, pinned, k, region) == Step(r, false) && Inv(r)
  {
    InsertStep(s.(clock := s.clock + 1), s.clock, k, Newcomer(region, s.clock + 1));
  }

  lemma PutStep(s: Frames, pinned: set<ChunkKey>, k: ChunkKey, region: Value)
    requires Inv(s)
    ensures PutOk(s, pinned, k, region, Put(s, pinned, k, region))
  {
    if k in s.frame {
      PutResidentStep(s, pinned, k, region);
    } else if |s.order| < s.capacity {
      PutWithRoom(s, pinned, k, region);
    } else if !Evictable(s.frame, pinned) {
      PutRaises(s, pinned, k, region);
    } else {
      var v, after := PutEvicts(s, pinned, k, region);
    }
  }

  /******* Runs *******/

  datatype Cache = Cache(frames: Frames, pinned: set<ChunkKey>)

  function Exec(s: Cache, op: Op): Cache
    requires s.frames.frame.Keys == Keys(s.frames.order)
  {
    match op
    case DoGet(k, region) => s.(frames := Get(s.frames, k, region))
    case DoPut(k, region) => s.(frames := Put(s.frames, s.pinned, k, region).frames)
    case DoPin(k) => s.(pinned := s.pinned + {k})
    case DoUnpin(k) => s.(pinned := s.pinned - {k})
  }

  lemma ExecStep(s: Cache, op: Op)
    requires Inv(s.frames)
    ensures
      var r := Exec(s, op);
      && Inv(r.frames) && r.frames.capacity == s.frames.capacity && r.frames.policy == s.frames.policy
      && |s.frames.order| <= |r.frames.order|
      && forall x :: x in s.frames.frame && x in s.pinned ==> x in r.frames.frame
  {
    if op.DoGet? {
      GetStep(s.frames, op.k, op.region);
    } else if op.DoPut? {
      PutStep(s.frames, s.pinned, op.k, op.region);
    }
  }

  /** Any interleaving of gets, puts, pins and unpins, raising or not, keeps the
      invariant. */
  ghost function Run(s: Cache, ops: seq<Op>): (r: Cache)
    requires Inv(s.frames)
    ensures Inv(r.frames) && r.frames.capacity == s.frames.capacity && r.frames.policy == s.frames.policy
    ensures |s.frames.order| <= |r.frames.order|
    decreases |ops|
  {
    if ops == [] then s
    else
      ExecStep(s, ops[0]);
      Run(Exec(s, ops[0]), ops[1..])
  }

  lemma {:induction false} RunSnoc(s: Cache, ops: seq<Op>, op: Op)
    requires Inv(s.frames)
    ensures Run(s, ops + [op]) == Exec(Run(s, ops), op)
    decreases |ops|
  {
    if ops == [] {
      assert [] + [op] == [op] && [op][1..] == [];
      ExecStep(s, op);
    } else {
      ExecStep(s, ops[0]);
      assert (ops + [op])[0] == ops[0] && (ops + [op])[1..] == ops[1..] + [op];
      RunSnoc(Exec(s, ops[0]), ops[1..], op);
    }
  }

  /** A pinned resident stays until it is unpinned. */
  lemma {:induction false} PinnedStays(s: Cache, ops: seq<Op>, x: ChunkKey)
    requires Inv(s.frames) && x in s.frames.frame && x in s.pinned
    requires DoUnpin(x) !in ops
    ensures x in Run(s, ops).frames.frame && x in Run(s, ops).pinned
    decreases |ops|
  {
    if ops != [] {
      ExecStep(s, ops[0]);
      PinnedStays(Exec(s, ops[0]), ops[1..], x);
    }
  }
}
