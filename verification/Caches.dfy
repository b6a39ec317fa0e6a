// The five cache policies behind one interface: as values, and as objects.
module Caches {
  import opened Types
  import SketchSpec
  import FrameSpec
  import ArcSpec
  import ArcSafety
  import TinyLfuSpec
  import FrameCache
  import ArcCache
  import TinyLfuCache

  /** SCADS, LRU and LFU are `FrameState`s of different policies. */
  datatype CacheState =
    | FrameState(frames: FrameSpec.Frames, pinned: set<ChunkKey>)
    | ArcState(arc: ArcSpec.Arc, pinned: set<ChunkKey>)
    | TinyState(layout: SketchSpec.Layout, tiny: TinyLfuSpec.Tiny, pinned: set<ChunkKey>)

  ghost predicate Inv(c: CacheState) {
    match c
    case FrameState(s, _) => FrameSpec.Inv(s)
    case ArcState(a, _) => ArcSpec.Inv(a)
    case TinyState(l, s, _) => TinyLfuSpec.Inv(l, s)
  }

  predicate Resident(c: CacheState, k: ChunkKey) {
    match c
    case FrameState(s, _) => k in s.frame
    case ArcState(a, _) => ArcSpec.Resident(a, k)
    case TinyState(_, s, _) => k in s.main
  }

  ghost predicate Full(c: CacheState) {
    match c
    case FrameState(s, _) => |s.order| == s.capacity
    case ArcState(a, _) => |a.t1| + |a.t2| == a.c
    case TinyState(_, s, _) => |s.main| == s.capacity
  }

  ghost function CacheGet(c: CacheState, k: ChunkKey, region: Value): CacheState
    requires Inv(c)
  {
    match c
    case FrameState(s, p) => FrameState(FrameSpec.Get(s, k, region), p)
    case ArcState(a, p) => ArcState(ArcSpec.Get(a, k), p)
    case TinyState(l, s, p) => TinyState(l, TinyLfuSpec.Get(l, s, k), p)
  }

  ghost function CachePut(c: CacheState, k: ChunkKey, region: Value): (CacheState, bool)
    requires Inv(c)
  {
    match c
    case FrameState(s, p) =>
      var r := FrameSpec.Put(s, p, k, region); (FrameState(r.frames, p), r.raised)
    case ArcState(a, p) =>
      var r := ArcSpec.Put(a, p, k); (ArcState(r.arc, p), r.raised)
    case TinyState(l, s, p) =>
      var r := TinyLfuSpec.Put(l, s, p, k); (TinyState(l, r.tiny, p), r.raised)
  }

  function Pinned(c: CacheState, pinned: set<ChunkKey>): CacheState {
    c.(pinned := pinned)
  }

  lemma GetStep(c: CacheState, k: ChunkKey, region: Value)
    requires Inv(c)
    ensures Inv(CacheGet(c, k, region)) && CacheGet(c, k, region).pinned == c.pinned
    ensures Full(CacheGet(c, k, region)) == Full(c)
    ensures forall x :: Resident(CacheGet(c, k, region), x) <==> Resident(c, x)
  {
    match c
    case FrameState(s, _) => FrameSpec.GetStep(s, k, region);
    case ArcState(a, _) => ArcSpec.GetKeepsInv(a, k);
    case TinyState(l, s, _) => TinyLfuSpec.GetStep(l, s, k);
  }

  /** Whatever the policy: put raises exactly when the key is absent, the cache
      is full and every resident is pinned; a raising put leaves the residents,
      and no put loses a pinned one. */
  lemma PutStep(c: CacheState, k: ChunkKey, region: Value)
    requires Inv(c)
    ensures
      var (r, raised) := CachePut(c, k, region);
      && Inv(r) && r.pinned == c.pinned
      && (raised <==> !Resident(c, k) && Full(c) && forall x :: Resident(c, x) ==> x in c.pinned)
      && (raised ==> forall x :: Resident(r, x) <==> Resident(c, x))
      && (forall x :: Resident(c, x) && x in c.pinned ==> Resident(r, x))
  {
    match c
    case FrameState(s, p) => FrameSpec.PutStep(s, p, k, region);
    case ArcState(a, p) => ArcSafety.PutStep(a, p, k);
    case TinyState(l, s, p) => TinyLfuSpec.PutStep(l, s, p, k);
  }

  /** Every policy but TinyLFU admits whatever it does not raise on. */
  lemma PutAdmits(c: CacheState, k: ChunkKey, region: Value)
    requires Inv(c)
    ensures !CachePut(c, k, region).1 && !c.TinyState? ==> Resident(CachePut(c, k, region).0, k)
  {
    match c
    case FrameState(s, p) => FrameSpec.PutStep(s, p, k, region);
    case ArcState(a, p) => ArcSafety.PutStep(a, p, k);
    case TinyState(l, s, p) =>
  }

  /******* Runs *******/

  /** The policy's own run on `ops`. */
  ghost function PolicyRun(c: CacheState, ops: seq<Op>): (r: CacheState)
    requires Inv(c)
    ensures Inv(r)
  {
    match c
    case FrameState(s, p) =>
      var r := FrameSpec.Run(FrameSpec.Cache(s, p), ops); FrameState(r.frames, r.pinned)
    case ArcState(a, p) =>
      var r := ArcSafety.Run(ArcSafety.Cache(a, p), ops); ArcState(r.arc, r.pinned)
    case TinyState(l, s, p) =>
      var r := TinyLfuSpec.RunOn(l, TinyLfuSpec.Cache(s, p), ops); TinyState(l, r.tiny, r.pinned)
  }

  /** One call more through the common interface. */
  ghost function Step(c: CacheState, op: Op): CacheState
    requires Inv(c)
  {
    match op
    case DoGet(k, region) => CacheGet(c, k, region)
    case DoPut(k, region) => CachePut(c, k, region).0
    case DoPin(k) => Pinned(c, c.pinned + {k})
    case DoUnpin(k) => Pinned(c, c.pinned - {k})
  }

  lemma PolicyRunSnoc(c: CacheState, ops: seq<Op>, op: Op)
    requires Inv(c)
    ensures PolicyRun(c, ops + [op]) == Step(PolicyRun(c, ops), op)
  {
    match c
    case FrameState(s, p) => FrameSpec.RunSnoc(FrameSpec.Cache(s, p), ops, op);
    case ArcState(a, p) => ArcSafety.RunSnoc(ArcSafety.Cache(a, p), ops, op);
    case TinyState(l, s, p) => TinyLfuSpec.RunSnoc(l, TinyLfuSpec.Cache(s, p), ops, op);
  }

  /** What a hit leaves, policy by policy. */
  lemma HitRecorded(c: CacheState, k: ChunkKey, region: Value)
    requires Inv(c) && Resident(c, k)
    ensures c.FrameState? ==>
              var r, f := CacheGet(c, k, region), c.frames.frame[k];
              && r.FrameState? && r.frames.clock == c.frames.clock + 1
              && r.frames.frame == c.frames.frame[k := FrameSpec.FrameVal(f.region, f.count + 1, region, false,
                                                                          c.frames.clock + 1)]
    ensures c.ArcState? ==>
              var r := CacheGet(c, k, region);
              r.ArcState? && r.arc.t2 != [] && r.arc.t2[|r.arc.t2| - 1] == k
    ensures c.TinyState? ==>
              var r := CacheGet(c, k, region);
              && r.TinyState? && r.tiny.main != [] && r.tiny.main[|r.tiny.main| - 1] == k
              && r.tiny.table == SketchSpec.Increment(c.layout, c.tiny.table, k)
  {
    match c
    case FrameState(_, _) =>
    case ArcState(a, _) => ArcSpec.GetKeepsInv(a, k);
    case TinyState(l, s, _) => TinyLfuSpec.GetMoves(l, s, k);
  }

  /******* The objects *******/

  datatype CacheRef =
    | Frames(f: FrameCache.FrameCache)
    | Arc(a: ArcCache.ARCCache)
    | Tiny(t: TinyLfuCache.TinyLFUCache)
  {
    ghost function Repr(): set<object>
      reads match this case Frames(f) => {f} case _ => {}
    {
      match this
      case Frames(f) => {f} + f.repr
      case Arc(a) => {a}
      case Tiny(t) => {t, t.sketch, t.sketch.table}
    }

    ghost predicate Valid()
      reads Repr(), match this case Frames(f) => {f} case _ => {}
    {
      match this
      case Frames(f) => f.Valid()
      case Arc(a) => true
      case Tiny(t) => t.Valid()
    }

    ghost function State(): CacheState
      requires Valid()
      reads Repr(), match this case Frames(f) => {f} case _ => {}
    {
      match this
      case Frames(f) => FrameState(FrameSpec.Frames(f.policy, f.capacity, f.clock, f.order, f.table), f.pinned)
      case Arc(a) => ArcState(a.State(), a.pinned)
      case Tiny(t) => TinyState(t.sketch.layout, t.State(), t.pinned)
    }

    method Get(k: ChunkKey, region: Value) returns (hit: bool)
      requires Valid() && Inv(State())
      modifies Repr()
      ensures Valid() && Repr() == old(Repr())
      ensures State() == CacheGet(old(State()), k, region)
      ensures hit == Resident(old(State()), k)
    {
      match this {
        case Frames(f) => hit := f.Get(k, region);
        case Arc(a) => hit := a.Get(k);
        case Tiny(t) => hit := t.Get(k);
      }
    }

    method Put(k: ChunkKey, region: Value) returns (raised: bool)
      requires Valid() && Inv(State())
      modifies Repr()
      ensures Valid() && forall o :: o in Repr() ==> o in old(Repr()) || fresh(o)
      ensures (State(), raised) == CachePut(old(State()), k, region)
    {
      match this {
        case Frames(f) => raised := f.Put(k, region);
        case Arc(a) => raised := a.Put(k);
        case Tiny(t) => raised := t.Put(k);
      }
    }
  }

  datatype Kind = Scads | Lru | Lfu | ArcKind | TinyLfu

  /** A new cache of the policy asked for, empty and unpinned. */
  function Fresh(kind: Kind, capacity: nat, hash: (int, ChunkKey) -> int): CacheState {
    match kind
    case Scads => FrameState(FrameSpec.Frames(FrameSpec.SCADS, capacity, 0, [], map[]), {})
    case Lru => FrameState(FrameSpec.Frames(FrameSpec.LRU, capacity, 0, [], map[]), {})
    case Lfu => FrameState(FrameSpec.Frames(FrameSpec.LFU, capacity, 0, [], map[]), {})
    case ArcKind => ArcState(ArcSpec.Arc(capacity, 0, [], [], [], []), {})
    case TinyLfu =>
      var l := SketchSpec.Layout(512, 4, 1, hash);
      TinyState(l, TinyLfuSpec.Tiny(capacity, [], SketchSpec.Zero(l)), {})
  }

  /** Any policy refuses a capacity that is not positive (ValueError) and
      otherwise starts fresh with that capacity. */
  method Make(kind: Kind, capacity: int, hash: (int, ChunkKey) -> int) returns (cache: Option<CacheRef>)
    ensures cache.None? <==> capacity <= 0
    ensures cache.Some? ==>
              && cache.value.Valid() && fresh(cache.value.Repr())
              && cache.value.State() == Fresh(kind, capacity, hash) && Inv(cache.value.State())
  {
    if capacity <= 0 {
      return None;
    }
    match kind {
      case Scads => cache := MakeFrames(FrameSpec.SCADS, capacity);
      case Lru => cache := MakeFrames(FrameSpec.LRU, capacity);
      case Lfu => cache := MakeFrames(FrameSpec.LFU, capacity);
      case ArcKind =>
        var c := new ArcCache.ARCCache(capacity);
        cache := Some(Arc(c));
      case TinyLfu =>
        var c := new TinyLfuCache.TinyLFUCache(capacity, hash);
        cache := Some(Tiny(c));
    }
  }

  method MakeFrames(policy: FrameSpec.Policy, capacity: nat) returns (cache: Option<CacheRef>)
    requires capacity > 0
    ensures cache.Some? && cache.value.Valid() && fresh(cache.value.Repr())
    ensures cache.value.State() == FrameState(FrameSpec.Empty(policy, capacity), {})
  {
    var c := new FrameCache.FrameCache(policy, capacity);
    cache := Some(Frames(c));
  }
}
