// Grace over whole runs, and the scan resistance of SCADS that rests on it.
module FrameGrace {
  import opened Types
  import opened KeyLists
  import opened FrameSpec

  /******* Pin-free runs *******/

  ghost predicate GraceOnly(s: Frames, k: ChunkKey) {
    forall x :: x in s.frame && s.frame[x].grace ==> x == k
  }

  predicate PinFree(ops: seq<Op>) {
    forall op :: op in ops ==> op.DoGet? || op.DoPut?
  }

  /** The key inserted last: the last put of an absent key, or `last` if none. */
  ghost function LastInserted(s: Cache, ops: seq<Op>, last: ChunkKey): ChunkKey
    requires Inv(s.frames)
    decreases |ops|
  {
    if ops == [] then last
    else
      ExecStep(s, ops[0]);
      LastInserted(Exec(s, ops[0]), ops[1..],
                   if ops[0].DoPut? && ops[0].k !in s.frames.frame then ops[0].k else last)
  }

  lemma FirstEviction(s: Frames, k: ChunkKey, region: Value)
    requires Inv(s) && k !in s.frame && |s.order| == s.capacity
    ensures
      var r := Put(s, {}, k, region).frames;
      GraceOnly(r, k) && |r.order| == r.capacity
  {
    SomeResident(s);
    var _, _ := PutEvicts(s, {}, k, region);
  }

  lemma SomeResident(s: Frames)
    requires Shape(s) && s.order != []
    ensures Evictable(s.frame, {})
  {
    assert s.order[0] in Keys(s.order);
  }

  /** A full cache whose only graced frame is the last one inserted stays so. */
  lemma {:induction false} GraceStays(s: Cache, ops: seq<Op>, last: ChunkKey)
    requires Inv(s.frames) && s.pinned == {} && PinFree(ops)
    requires |s.frames.order| == s.frames.capacity && GraceOnly(s.frames, last)
    ensures GraceOnly(Run(s, ops).frames, LastInserted(s, ops, last))
    decreases |ops|
  {
    if ops != [] {
      var op := ops[0];
      ExecStep(s, op);
      if op.DoPut? && op.k !in s.frames.frame {
        FirstEviction(s.frames, op.k, op.region);
        GraceStays(Exec(s, op), ops[1..], op.k);
      } else {
        GraceStays(Exec(s, op), ops[1..], last);
      }
    }
  }

  /** Some call of the run evicts. */
  ghost predicate Evicts(s: Cache, ops: seq<Op>)
    requires Inv(s.frames)
    decreases |ops|
  {
    ops != [] &&
    (EvictsNow(s.frames, ops[0]) ||
     (ExecStep(s, ops[0]); Evicts(Exec(s, ops[0]), ops[1..])))
  }

  ghost predicate EvictsNow(s: Frames, op: Op) {
    op.DoPut? && op.k !in s.frame && |s.order| >= s.capacity
  }

  /** After any pin-free run in which something was evicted, at most one frame is
      graced, and it is the one inserted last. */
  lemma {:induction false} GraceAfterEviction(s: Cache, ops: seq<Op>, last: ChunkKey)
    requires Inv(s.frames) && s.pinned == {} && PinFree(ops) && Evicts(s, ops)
    ensures GraceOnly(Run(s, ops).frames, LastInserted(s, ops, last))
    decreases |ops|
  {
    var op := ops[0];
    ExecStep(s, op);
    var last' := if op.DoPut? && op.k !in s.frames.frame then op.k else last;
    if EvictsNow(s.frames, op) {
      FirstEviction(s.frames, op.k, op.region);
      GraceStays(Exec(s, op), ops[1..], last');
    } else {
      GraceAfterEviction(Exec(s, op), ops[1..], last');
    }
  }

  /******* SCADS scan resistance *******/

  /** A full cache with at most one graced frame and a hot set that has been
      accessed and outscores every other resident. */
  ghost predicate Hot(s: Frames, hot: set<ChunkKey>) {
    && Inv(s) && s.policy == SCADS && |s.order| == s.capacity
    && OneGraced(s.frame) && Leads(s.frame, hot) && |hot| + 2 <= s.capacity
  }

  ghost predicate OneGraced(frame: map<ChunkKey, FrameVal>) {
    forall x, y :: x in frame && y in frame && frame[x].grace && frame[y].grace ==> x == y
  }

  datatype Request = Request(k: ChunkKey, queryRegion: Value, region: Value)

  /** Get, then put on a miss, without pins. */
  function Serve(s: Frames, q: Request): Frames
    requires s.frame.Keys == Keys(s.order)
  {
    if q.k in s.frame then Get(s, q.k, q.queryRegion)
    else Put(Get(s, q.k, q.queryRegion), {}, q.k, q.region).frames
  }

  /** With at most one graced frame and two residents outside the hot set, one
      of these is not graced. */
  lemma ColdUngraced(frame: map<ChunkKey, FrameVal>, hot: set<ChunkKey>) returns (x: ChunkKey)
    requires hot <= frame.Keys && |hot| + 2 <= |frame.Keys|
    requires OneGraced(frame)
    ensures x in frame && x !in hot && !frame[x].grace
  {
    var cold := frame.Keys - hot;
    assert |cold| == |frame.Keys| - |hot|;
    x :| x in cold;
    if frame[x].grace {
      var rest := cold - {x};
      assert |rest| == |cold| - 1;
      x :| x in rest;
    }
  }

  /** A miss is the clock's tick, then a put. */
  lemma MissIsPut(s: Frames, q: Request) returns (s1: Frames)
    requires Inv(s) && q.k !in s.frame
    ensures Inv(s1) && s1.policy == s.policy && s1.capacity == s.capacity && s1.clock == s.clock + 1
    ensures s1.order == s.order && s1.frame == s.frame
    ensures Serve(s, q) == Put(s1, {}, q.k, q.region).frames
  {
    s1 := Get(s, q.k, q.queryRegion);
    GetStep(s, q.k, q.queryRegion);
  }

  /** What a miss at a full cache does to the frames. */
  lemma MissEvicts(s: Frames, q: Request) returns (v: ChunkKey, after: map<ChunkKey, FrameVal>)
    requires Inv(s) && |s.order| == s.capacity && q.k !in s.frame
    ensures IsVictim(s.policy, s.frame, {}, v) && Evicted(s.frame, {}, v, after)
    ensures Serve(s, q).frame == after[q.k := Newcomer(q.region, s.clock + 2)]
  {
    var s1 := MissIsPut(s, q);
    SomeResident(s1);
    v, after := PutEvicts(s1, {}, q.k, q.region);
  }

  lemma MissKeeps(s: Frames, q: Request)
    requires Inv(s) && |s.order| == s.capacity && q.k !in s.frame
    ensures
      var r := Serve(s, q);
      Inv(r) && r.policy == s.policy && r.capacity == s.capacity && |r.order| == s.capacity
  {
    var s1 := MissIsPut(s, q);
    PutStep(s1, {}, q.k, q.region);
  }

  /** Accessed frames that outscore every other frame. */
  ghost predicate Leads(frame: map<ChunkKey, FrameVal>, hot: set<ChunkKey>) {
    && hot <= frame.Keys
    && (forall h :: h in hot ==> frame[h].count >= 1)
    && (forall h, x :: h in hot && x in frame && x !in hot ==> Score(frame[h]) > Score(frame[x]))
  }

  lemma ColdVictim(frame: map<ChunkKey, FrameVal>, hot: set<ChunkKey>, v: ChunkKey, x: ChunkKey)
    requires Leads(frame, hot) && IsVictim(SCADS, frame, {}, v)
    requires x in frame && x !in hot && !frame[x].grace
    ensures v !in hot
  {
    assert Weight(SCADS, frame[v]) <= Weight(SCADS, frame[x]);
  }

  lemma HotVictim(frame: map<ChunkKey, FrameVal>, hot: set<ChunkKey>, v: ChunkKey)
    requires Proven(frame) && Leads(frame, hot) && hot != {} && IsVictim(SCADS, frame, {}, v)
    requires forall x :: x in frame && x !in hot ==> frame[x].grace
    ensures v in hot
  {
    var h :| h in hot;
    assert !frame[h].grace;
  }

  lemma KeptIff(frame: map<ChunkKey, FrameVal>, hot: set<ChunkKey>, v: ChunkKey,
                after: map<ChunkKey, FrameVal>, k: ChunkKey, f: FrameVal)
    requires hot <= frame.Keys && k !in frame && Evicted(frame, {}, v, after)
    ensures hot <= after[k := f].Keys <==> v !in hot
  {
    assert after[k := f].Keys == frame.Keys - {v} + {k};
  }

  /** A miss at a full cache spares a leading set exactly when some frame outside
      it is out of its grace. */
  lemma MissSparesIff(s: Frames, hot: set<ChunkKey>, q: Request)
    requires Inv(s) && s.policy == SCADS && |s.order| == s.capacity && q.k !in s.frame
    requires Leads(s.frame, hot) && hot != {}
    ensures hot <= Serve(s, q).frame.Keys <==> exists x :: x in s.frame && x !in hot && !s.frame[x].grace
  {
    var v, after := MissEvicts(s, q);
    KeptIff(s.frame, hot, v, after, q.k, Newcomer(q.region, s.clock + 2));
    if x :| x in s.frame && x !in hot && !s.frame[x].grace {
      ColdVictim(s.frame, hot, v, x);
    } else {
      HotVictim(s.frame, hot, v);
    }
  }

  /** For example at capacity 2: `a` is put, then got from its own region, `b` is
      put. The miss on `c` evicts the accessed, higher scoring `a`, since `b` is
      still in its grace. */
  lemma ScadsLosesHot(a: ChunkKey, b: ChunkKey, c: ChunkKey, r: Value)
    requires a != b && b != c && c != a && r != Null
    ensures
      var s := Serve(Serve(Serve(Empty(SCADS, 2), Request(a, r, r)), Request(a, r, r)), Request(b, r, r));
      && s.frame == map[a := FrameVal(r, 1, r, false, 3), b := FrameVal(r, 0, Null, true, 5)]
      && Score(s.frame[a]) == 46 && Score(s.frame[b]) == 8
      && a !in Serve(s, Request(c, r, r)).frame
  {
    var s := TwoServed(a, b, r);
    OnlyHotUngraced(s.frame, a, b);
    MissSparesIff(s, {a}, Request(c, r, r));
  }

  lemma OnlyHotUngraced(frame: map<ChunkKey, FrameVal>, a: ChunkKey, b: ChunkKey)
    requires frame.Keys == {a, b} && frame[a].count >= 1 && Score(frame[a]) > Score(frame[b]) && frame[b].grace
    ensures Leads(frame, {a})
    ensures !exists x :: x in frame && x !in {a} && !frame[x].grace
  {
  }

  lemma TwoServed(a: ChunkKey, b: ChunkKey, r: Value) returns (s: Frames)
    requires a != b
    ensures s == Serve(Serve(Serve(Empty(SCADS, 2), Request(a, r, r)), Request(a, r, r)), Request(b, r, r))
    ensures Inv(s) && s.policy == SCADS && |s.order| == s.capacity
    ensures s.frame == map[a := FrameVal(r, 1, r, false, 3), b := FrameVal(r, 0, Null, true, 5)]
  {
    var s2 := PutThenGot(a, r);
    s := Serve(s2, Request(b, r, r));
    ServeKeeps(s2, Request(b, r, r));
  }

  lemma PutThenGot(a: ChunkKey, r: Value) returns (s: Frames)
    ensures s == Serve(Serve(Empty(SCADS, 2), Request(a, r, r)), Request(a, r, r)) && Inv(s)
    ensures s == Frames(SCADS, 2, 3, [a], map[a := FrameVal(r, 1, r, false, 3)])
  {
    var s1 := FirstPut(a, r);
    s := HitIsGet(s1, Request(a, r, r));
    Overwrite(a, Newcomer(r, 2), FrameVal(r, 1, r, false, 3));
  }

  lemma Overwrite(a: ChunkKey, f: FrameVal, g: FrameVal)
    ensures map[a := f][a := g] == map[a := g]
  {
  }

  lemma FirstPut(a: ChunkKey, r: Value) returns (s: Frames)
    ensures s == Serve(Empty(SCADS, 2), Request(a, r, r)) && Inv(s)
    ensures s == Frames(SCADS, 2, 2, [a], map[a := Newcomer(r, 2)])
  {
    s := Serve(Empty(SCADS, 2), Request(a, r, r));
    ServeKeeps(Empty(SCADS, 2), Request(a, r, r));
  }

  lemma ServeKeeps(s: Frames, q: Request)
    requires Inv(s)
    ensures Inv(Serve(s, q)) && Serve(s, q).capacity == s.capacity && Serve(s, q).policy == s.policy
  {
    GetStep(s, q.k, q.queryRegion);
    PutStep(Get(s, q.k, q.queryRegion), {}, q.k, q.region);
  }

  /** One request for an absent key keeps the hot set, hot. */
  lemma ScanStep(s: Frames, hot: set<ChunkKey>, q: Request)
    requires Hot(s, hot) && q.k !in s.frame
    ensures Hot(Serve(s, q), hot)
  {
    MissKeeps(s, q);
    MissKeepsHot(s, hot, q);
  }

  lemma MissKeepsHot(s: Frames, hot: set<ChunkKey>, q: Request)
    requires Hot(s, hot) && q.k !in s.frame
    ensures Leads(Serve(s, q).frame, hot) && OneGraced(Serve(s, q).frame)
  {
    var v, after := MissEvicts(s, q);
    DistinctSize(s.order);
    var x := ColdUngraced(s.frame, hot);
    ColdVictim(s.frame, hot, v, x);
    HotAfter(s.frame, hot, v, after, q.k, Newcomer(q.region, s.clock + 2));
  }

  lemma HitIsGet(s: Frames, q: Request) returns (r: Frames)
    requires Inv(s) && q.k in s.frame
    ensures r == Serve(s, q) && Inv(r)
    ensures r.policy == s.policy && r.capacity == s.capacity && r.order == s.order && r.clock == s.clock + 1
    ensures r.frame == s.frame[q.k := Accessed(s.frame[q.k], s.clock + 1, q.queryRegion)]
  {
    r := Get(s, q.k, q.queryRegion);
    GetStep(s, q.k, q.queryRegion);
  }

  /** A hit on a hot key from its own region only raises its score. */
  lemma HitStep(s: Frames, hot: set<ChunkKey>, q: Request)
    requires Hot(s, hot) && q.k in hot && q.queryRegion == s.frame[q.k].region
    ensures Hot(Serve(s, q), hot)
  {
    var r := HitIsGet(s, q);
    HotterStill(s.frame, hot, q.k, Accessed(s.frame[q.k], s.clock + 1, q.queryRegion));
    assert Hot(r, hot);
  }

  lemma HotterStill(frame: map<ChunkKey, FrameVal>, hot: set<ChunkKey>, k: ChunkKey, f: FrameVal)
    requires Leads(frame, hot) && OneGraced(frame) && k in hot
    requires f == Accessed(frame[k], f.recency, frame[k].region)
    ensures Leads(frame[k := f], hot) && OneGraced(frame[k := f])
  {
    assert Score(f) >= Score(frame[k]);
  }

  lemma HotAfter(frame: map<ChunkKey, FrameVal>, hot: set<ChunkKey>, v: ChunkKey,
                 after: map<ChunkKey, FrameVal>, k: ChunkKey, f: FrameVal)
    requires Leads(frame, hot) && v !in hot && k !in frame && Evicted(frame, {}, v, after)
    requires f.count == 0 && f.lastQuery == Null
    ensures Leads(after[k := f], hot) && OneGraced(after[k := f])
  {
    assert forall x :: x in after ==> Score(after[x]) == Score(frame[x]);
  }

  ghost function ServeAll(s: Frames, scan: seq<Request>): (r: Frames)
    requires Inv(s)
    ensures Inv(r) && r.capacity == s.capacity && r.policy == s.policy
  {
    if scan == [] then s
    else
      var before, q := ServeAll(s, scan[..|scan| - 1]), scan[|scan| - 1];
      GetStep(before, q.k, q.queryRegion);
      PutStep(Get(before, q.k, q.queryRegion), {}, q.k, q.region);
      Serve(before, q)
  }

  /** Every request is for a key that is absent when requested, or for a hot key
      from that key's own region. */
  ghost predicate Mild(s: Frames, hot: set<ChunkKey>, scan: seq<Request>)
    requires Inv(s)
  {
    scan == [] ||
    (Mild(s, hot, scan[..|scan| - 1]) && MildRequest(ServeAll(s, scan[..|scan| - 1]), hot, scan[|scan| - 1]))
  }

  ghost predicate MildRequest(s: Frames, hot: set<ChunkKey>, q: Request) {
    q.k in s.frame ==> q.k in hot && q.queryRegion == s.frame[q.k].region
  }

  lemma MildStep(s: Frames, hot: set<ChunkKey>, q: Request)
    requires Hot(s, hot) && MildRequest(s, hot, q)
    ensures Hot(Serve(s, q), hot)
  {
    if q.k in s.frame {
      HitStep(s, hot, q);
    } else {
      ScanStep(s, hot, q);
    }
  }

  /** A scan of any length over absent keys, mixed with own-region hits on the
      hot set, never evicts a hot key. */
  lemma {:induction false} ScanResistance(s: Frames, hot: set<ChunkKey>, scan: seq<Request>)
    requires Hot(s, hot) && Mild(s, hot, scan)
    ensures Hot(ServeAll(s, scan), hot)
  {
    if scan != [] {
      var n := |scan| - 1;
      ScanResistance(s, hot, scan[..n]);
      MildStep(ServeAll(s, scan[..n]), hot, scan[n]);
    }
  }

  /** One hot key more is too many: of two misses in a row, one loses a hot key. */
  lemma NoRoomForScan(s: Frames, hot: set<ChunkKey>, q: Request, q': Request)
    requires Inv(s) && s.policy == SCADS && |s.order| == s.capacity
    requires Leads(s.frame, hot) && hot != {} && |hot| == s.capacity - 1
    requires q.k !in s.frame && q'.k !in Serve(s, q).frame
    ensures Inv(Serve(s, q))
    ensures !(hot <= Serve(s, q).frame.Keys && hot <= Serve(Serve(s, q), q').frame.Keys)
  {
    MissKeeps(s, q);
    if hot <= Serve(s, q).frame.Keys {
      var r := Serve(s, q);
      OnlyNewcomer(s, hot, q);
      MissSparesIff(r, hot, q');
    }
  }

  /** After the first miss only the newcomer, in its grace, is outside. */
  lemma OnlyNewcomer(s: Frames, hot: set<ChunkKey>, q: Request)
    requires Inv(s) && s.policy == SCADS && |s.order| == s.capacity && q.k !in s.frame
    requires Leads(s.frame, hot) && |hot| == s.capacity - 1 && hot <= Serve(s, q).frame.Keys
    ensures Leads(Serve(s, q).frame, hot)
    ensures forall x :: x in Serve(s, q).frame && x !in hot ==> Serve(s, q).frame[x].grace
  {
    var v, after := MissEvicts(s, q);
    var f := Newcomer(q.region, s.clock + 2);
    KeptIff(s.frame, hot, v, after, q.k, f);
    HotAfter(s.frame, hot, v, after, q.k, f);
    DistinctSize(s.order);
    RestIsHot(s.frame.Keys, hot, v);
  }

  lemma RestIsHot(keys: set<ChunkKey>, hot: set<ChunkKey>, v: ChunkKey)
    requires hot <= keys && v in keys && v !in hot && |hot| == |keys| - 1
    ensures keys - {v} == hot
  {
    var rest := keys - {v} - hot;
    assert keys - {v} == hot + rest;
    assert |hot + rest| == |hot| + |rest|;
  }
}
