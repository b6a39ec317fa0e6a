// TinyLFU: an LRU list whose door is kept by the sketch.
module TinyLfuSpec {
  import opened Types
  import opened KeyLists
  import opened LruStack
  import opened SketchSpec

  datatype Tiny = Tiny(capacity: nat, main: seq<ChunkKey>, table: Table)

  datatype Step = Step(tiny: Tiny, raised: bool)

  ghost predicate Inv(l: Layout, s: Tiny) {
    && Sound(l) && Fits(l, s.table)
    && 1 <= s.capacity && |s.main| <= s.capacity && Distinct(s.main)
  }

  function Get(l: Layout, s: Tiny, k: ChunkKey): Tiny
    requires Sound(l) && Fits(l, s.table)
  {
    s.(table := Increment(l, s.table, k), main := if k in s.main then Touch(s.main, k) else s.main)
  }

  function Put(l: Layout, s: Tiny, pinned: set<ChunkKey>, k: ChunkKey): Step
    requires Sound(l) && Fits(l, s.table)
  {
    var s1 := s.(table := Increment(l, s.table, k));
    if k in s.main then Step(s1.(main := Touch(s.main, k)), false)
    else if |s.main| < s.capacity then Step(s1.(main := s.main + [k]), false)
    else
      match Victim(s.main, pinned)
      case None => Step(s1, true)
      case Some(v) =>
        if Estimate(l, s1.table, k) >= Estimate(l, s1.table, v)
        then Step(s1.(main := Del(s.main, v) + [k]), false)
        else Step(s1, false)
  }

  lemma GetStep(l: Layout, s: Tiny, k: ChunkKey)
    requires Inv(l, s)
    ensures Inv(l, Get(l, s, k))
    ensures |Get(l, s, k).main| == |s.main|
    ensures forall x :: x in Get(l, s, k).main <==> x in s.main
  {
    WithoutDistinct(s.main, k);
  }

  lemma PutStep(l: Layout, s: Tiny, pinned: set<ChunkKey>, k: ChunkKey)
    requires Inv(l, s)
    ensures
      var r := Put(l, s, pinned, k);
      && Inv(l, r.tiny)
      && (r.raised <==> k !in s.main && |s.main| == s.capacity && forall x :: x in s.main ==> x in pinned)
      && (r.raised ==> r.tiny.main == s.main)
      && (k in s.main || |s.main| < s.capacity ==> k in r.tiny.main)
      && (forall x :: x in s.main && x in pinned ==> x in r.tiny.main)
      && |s.main| <= |r.tiny.main|
      && r.tiny.capacity == s.capacity
  {
    WithoutDistinct(s.main, k);
    var v := Victim(s.main, pinned);
    if v.Some? {
      WithoutDistinct(s.main, v.value);
    }
  }

  /** A get counts its key; a hit at position `i` moves it to the young end, a
      miss leaves the list. */
  lemma GetMoves(l: Layout, s: Tiny, k: ChunkKey)
    requires Inv(l, s)
    ensures Get(l, s, k).capacity == s.capacity && Get(l, s, k).table == Increment(l, s.table, k)
    ensures k !in s.main ==> Get(l, s, k).main == s.main
    ensures forall i :: 0 <= i < |s.main| && s.main[i] == k ==> Get(l, s, k).main == Cut(s.main, i) + [k]
  {
    forall i | 0 <= i < |s.main| && s.main[i] == k
      ensures Get(l, s, k).main == Cut(s.main, i) + [k]
    {
      WithoutAt(s.main, i);
    }
  }

  /** A put counts its key; a resident at position `i` moves to the young end, a
      new key with room goes there and nothing leaves. */
  lemma PutMoves(l: Layout, s: Tiny, pinned: set<ChunkKey>, k: ChunkKey)
    requires Inv(l, s)
    ensures
      var r := Put(l, s, pinned, k);
      && r.tiny.capacity == s.capacity && r.tiny.table == Increment(l, s.table, k)
      && (forall i :: 0 <= i < |s.main| && s.main[i] == k ==> r.tiny.main == Cut(s.main, i) + [k])
      && (k !in s.main && |s.main| < s.capacity ==> r.tiny.main == s.main + [k])
  {
    forall i | 0 <= i < |s.main| && s.main[i] == k
      ensures Put(l, s, pinned, k).tiny.main == Cut(s.main, i) + [k]
    {
      WithoutAt(s.main, i);
    }
  }

  /** At a full cache an absent key is either admitted in place of the oldest
      unpinned resident, at position `i`, or turned away with the list untouched. */
  lemma AdmissionStep(l: Layout, s: Tiny, pinned: set<ChunkKey>, k: ChunkKey) returns (i: nat)
    requires Inv(l, s) && k !in s.main && |s.main| == s.capacity
    requires exists x :: x in s.main && x !in pinned
    ensures i < |s.main| && s.main[i] !in pinned && forall j :: 0 <= j < i ==> s.main[j] in pinned
    ensures
      var r := Put(l, s, pinned, k).tiny;
      r.main == if Estimate(l, r.table, k) >= Estimate(l, r.table, s.main[i])
                then Cut(s.main, i) + [k] else s.main
  {
    i := VictimIsOldest(s.main, pinned);
    WithoutAt(s.main, i);
  }

  /** A put of `k` pushes resident `v` out. */
  predicate Displaced(l: Layout, s: Tiny, pinned: set<ChunkKey>, k: ChunkKey, v: ChunkKey)
    requires Sound(l) && Fits(l, s.table)
  {
    v != k && v in s.main && v !in Put(l, s, pinned, k).tiny.main
  }

  /** A put displaces only at a full cache, only the oldest unpinned resident,
      and only when the candidate is estimated at least as frequent. */
  lemma Displacement(l: Layout, s: Tiny, pinned: set<ChunkKey>, k: ChunkKey, v: ChunkKey)
    requires Inv(l, s) && Displaced(l, s, pinned, k, v)
    ensures |s.main| == s.capacity && Victim(s.main, pinned) == Some(v)
    ensures
      var table := Put(l, s, pinned, k).tiny.table;
      Estimate(l, table, k) >= Estimate(l, table, v)
  {
  }

  /******* Runs *******/

  datatype Cache = Cache(tiny: Tiny, pinned: set<ChunkKey>)

  function Exec(l: Layout, s: Cache, op: Op): Cache
    requires Sound(l) && Fits(l, s.tiny.table)
  {
    match op
    case DoGet(k, _) => s.(tiny := Get(l, s.tiny, k))
    case DoPut(k, _) => s.(tiny := Put(l, s.tiny, s.pinned, k).tiny)
    case DoPin(k) => s.(pinned := s.pinned + {k})
    case DoUnpin(k) => s.(pinned := s.pinned - {k})
  }

  lemma ExecStep(l: Layout, s: Cache, op: Op)
    requires Inv(l, s.tiny)
    ensures
      var r := Exec(l, s, op);
      && Inv(l, r.tiny) && r.tiny.capacity == s.tiny.capacity
      && |s.tiny.main| <= |r.tiny.main|
      && forall x :: x in s.tiny.main && x in s.pinned ==> x in r.tiny.main
  {
    if op.DoGet? {
      GetStep(l, s.tiny, op.k);
    } else if op.DoPut? {
      PutStep(l, s.tiny, s.pinned, op.k);
    }
  }

  function Empty(l: Layout, capacity: nat): Cache {
    Cache(Tiny(capacity, [], Zero(l)), {})
  }

  /** A run, raising puts included. */
  ghost function RunOn(l: Layout, s: Cache, ops: seq<Op>): (r: Cache)
    requires Inv(l, s.tiny)
    ensures Inv(l, r.tiny) && r.tiny.capacity == s.tiny.capacity
  {
    if ops == [] then s
    else
      var before := RunOn(l, s, ops[..|ops| - 1]);
      ExecStep(l, before, ops[|ops| - 1]);
      Exec(l, before, ops[|ops| - 1])
  }

  lemma RunSnoc(l: Layout, s: Cache, ops: seq<Op>, op: Op)
    requires Inv(l, s.tiny)
    ensures RunOn(l, s, ops + [op]) == Exec(l, RunOn(l, s, ops), op)
  {
    assert (ops + [op])[..|ops|] == ops;
  }

  /** A run from empty: residents never exceed capacity. */
  ghost function RunFrom(l: Layout, capacity: nat, ops: seq<Op>): (r: Cache)
    requires Sound(l) && 1 <= capacity
    ensures Inv(l, r.tiny) && r.tiny.capacity == capacity
  {
    RunOn(l, Empty(l, capacity), ops)
  }

  function PutKeys(ops: seq<Op>): set<ChunkKey> {
    set op | op in ops && op.DoPut? :: op.k
  }

  /** While at most `capacity` distinct keys were put, every one of them is
      resident: nothing is displaced, rejected or raised on. */
  lemma {:induction false} NothingDisplaced(l: Layout, capacity: nat, ops: seq<Op>)
    requires Sound(l) && 1 <= capacity && |PutKeys(ops)| <= capacity
    ensures Keys(RunFrom(l, capacity, ops).tiny.main) == PutKeys(ops)
  {
    if ops != [] {
      var before, op := ops[..|ops| - 1], ops[|ops| - 1];
      assert ops == before + [op];
      assert PutKeys(ops) == PutKeys(before) + if op.DoPut? then {op.k} else {};
      SubsetSize(PutKeys(before), PutKeys(ops));
      NothingDisplaced(l, capacity, before);
      var s := RunFrom(l, capacity, before);
      DistinctSize(s.tiny.main);
      StepPuts(l, s, op);
    }
  }

  lemma StepPuts(l: Layout, s: Cache, op: Op)
    requires Inv(l, s.tiny)
    requires op.DoPut? && op.k !in s.tiny.main ==> |s.tiny.main| < s.tiny.capacity
    ensures Keys(Exec(l, s, op).tiny.main) == Keys(s.tiny.main) + if op.DoPut? then {op.k} else {}
  {
    if op.DoGet? {
      GetStep(l, s.tiny, op.k);
    } else if op.DoPut? && op.k !in s.tiny.main {
      PutMoves(l, s.tiny, s.pinned, op.k);
      KeysSnoc(s.tiny.main, op.k);
    } else if op.DoPut? {
      TouchDistinct(s.tiny.main, op.k);
      assert op.k in Keys(s.tiny.main);
    }
  }

  lemma ExecCounts(l: Layout, s: Cache, op: Op)
    requires Sound(l) && Fits(l, s.tiny.table)
    ensures Exec(l, s, op).tiny.table ==
            if op.DoGet? || op.DoPut? then Increment(l, s.tiny.table, op.k) else s.tiny.table
  {
  }

  /** The sketch of a run is that of the keys got and put. */
  lemma {:induction false} RunCounts(l: Layout, capacity: nat, ops: seq<Op>)
    requires Sound(l) && 1 <= capacity
    ensures RunFrom(l, capacity, ops).tiny.table == Run(l, Counted(ops))
  {
    if ops != [] {
      var before, op := ops[..|ops| - 1], ops[|ops| - 1];
      RunCounts(l, capacity, before);
      ExecCounts(l, RunFrom(l, capacity, before), op);
      CountedStep(l, before, op);
      assert before + [op] == ops;
    }
  }

  /** The keys counted by a run: one per get and one per put. */
  function Counted(ops: seq<Op>): seq<ChunkKey> {
    if ops == [] then []
    else
      var op := ops[|ops| - 1];
      Counted(ops[..|ops| - 1]) + if op.DoGet? || op.DoPut? then [op.k] else []
  }

  lemma CountedStep(l: Layout, ops: seq<Op>, op: Op)
    requires Sound(l)
    ensures Run(l, Counted(ops + [op])) ==
            if op.DoGet? || op.DoPut? then Increment(l, Run(l, Counted(ops)), op.k)
            else Run(l, Counted(ops))
  {
    assert (ops + [op])[..|ops|] == ops;
    var h := Counted(ops);
    if op.DoGet? || op.DoPut? {
      assert Counted(ops + [op]) == h + [op.k];
      assert (h + [op.k])[..|h|] == h;
    } else {
      assert Counted(ops + [op]) == h;
    }
  }

  /** Where the sketch has counted `h`, as after every run, whoever displaces
      `v` is estimated at least at `v`'s exact aged count; and a candidate with
      a collision-free row that is really less frequent never displaces it. */
  lemma Admission(l: Layout, s: Tiny, h: seq<ChunkKey>, pinned: set<ChunkKey>, k: ChunkKey, v: ChunkKey)
    requires Inv(l, s) && s.table == Run(l, h)
    ensures
      Displaced(l, s, pinned, k, v) ==>
        && Estimate(l, Run(l, h + [k]), k) >= Exact(l.width, h + [k], v)
        && forall i :: 0 <= i < l.depth && Alone(l, h + [k], k, i) ==>
             Exact(l.width, h + [k], k) >= Exact(l.width, h + [k], v)
  {
    if Displaced(l, s, pinned, k, v) {
      Displacement(l, s, pinned, k, v);
      assert (h + [k])[..|h|] == h;
      assert Put(l, s, pinned, k).tiny.table == Run(l, h + [k]);
      NeverUndercounts(l, h + [k], v);
      forall i | 0 <= i < l.depth && Alone(l, h + [k], k, i)
        ensures Exact(l.width, h + [k], k) >= Exact(l.width, h + [k], v)
      {
        ExactWhenAlone(l, h + [k], k, i);
      }
    }
  }

  lemma PutInRecencyOrder(l: Layout, s: Tiny, h: seq<ChunkKey>, pinned: set<ChunkKey>, k: ChunkKey)
    requires Inv(l, s) && ByRecency(s.main, h)
    ensures ByRecency(Put(l, s, pinned, k).tiny.main, h + [k])
  {
    TouchByRecency(s.main, h, k);
    WithoutByRecency(s.main, h, k);
    var v := Victim(s.main, pinned);
    if k !in s.main && v.Some? {
      DropInOrder(s.main, h, v.value);
      TouchByRecency(Without(s.main, v.value), h, k);
    }
  }

  lemma DropInOrder(s: seq<ChunkKey>, h: seq<ChunkKey>, v: ChunkKey)
    requires ByRecency(s, h)
    ensures ByRecency(Without(s, v), h)
  {
    var w := Without(s, v);
    forall i, j | 0 <= i < j < |w|
      ensures w[j] in RequestedSince(h, w[i])
    {
      var i', j' := WithoutOrder(s, v, i, j);
    }
  }

  /** After any run the residents are listed from least to most recently got or
      put, rejected and raising puts notwithstanding; so the victim, the first
      unpinned one, is the least recently used. */
  lemma {:induction false} RunInRecencyOrder(l: Layout, capacity: nat, ops: seq<Op>)
    requires Sound(l) && 1 <= capacity
    ensures ByRecency(RunFrom(l, capacity, ops).tiny.main, Counted(ops))
  {
    if ops != [] {
      var before, op := ops[..|ops| - 1], ops[|ops| - 1];
      var s, h := RunFrom(l, capacity, before), Counted(before);
      RunInRecencyOrder(l, capacity, before);
      if op.DoGet? {
        TouchByRecency(s.tiny.main, h, op.k);
        WithoutByRecency(s.tiny.main, h, op.k);
      } else if op.DoPut? {
        PutInRecencyOrder(l, s.tiny, h, s.pinned, op.k);
      } else {
        assert h + [] == h;
      }
    }
  }

  /** Over runs: when a put of `k` displaces `v`, `v` was unpinned and the least
      recently used of the unpinned residents, and `k` is estimated at least at
      `v`'s exact aged count in the whole run. */
  lemma RunAdmission(l: Layout, capacity: nat, ops: seq<Op>, k: ChunkKey, v: ChunkKey)
    requires Sound(l) && 1 <= capacity
    ensures
      var s, h := RunFrom(l, capacity, ops), Counted(ops);
      Displaced(l, s.tiny, s.pinned, k, v) ==>
        && v !in s.pinned
        && (forall x :: x in s.tiny.main && x !in s.pinned && x != v ==> x in RequestedSince(h, v))
        && Estimate(l, Run(l, h + [k]), k) >= Exact(l.width, h + [k], v)
        && forall i :: 0 <= i < l.depth && Alone(l, h + [k], k, i) ==>
             Exact(l.width, h + [k], k) >= Exact(l.width, h + [k], v)
  {
    var s, h := RunFrom(l, capacity, ops), Counted(ops);
    if Displaced(l, s.tiny, s.pinned, k, v) {
      RunCounts(l, capacity, ops);
      Admission(l, s.tiny, h, s.pinned, k, v);
      Displacement(l, s.tiny, s.pinned, k, v);
      RunInRecencyOrder(l, capacity, ops);
      OldestIsLeastRecent(s.tiny.main, s.pinned, h, v);
    }
  }

  lemma OldestIsLeastRecent(s: seq<ChunkKey>, pinned: set<ChunkKey>, h: seq<ChunkKey>, v: ChunkKey)
    requires ByRecency(s, h) && Victim(s, pinned) == Some(v)
    ensures v !in pinned
    ensures forall x :: x in s && x !in pinned && x != v ==> x in RequestedSince(h, v)
  {
    var i := VictimIsOldest(s, pinned);
    forall x | x in s && x !in pinned && x != v
      ensures x in RequestedSince(h, v)
    {
      var j :| 0 <= j < |s| && s[j] == x;
      assert i < j;
    }
  }

  /** A pinned resident stays until it is unpinned. */
  lemma {:induction false} PinnedStays(l: Layout, capacity: nat, ops: seq<Op>, more: seq<Op>, x: ChunkKey)
    requires Sound(l) && 1 <= capacity
    requires x in RunFrom(l, capacity, ops).tiny.main && x in RunFrom(l, capacity, ops).pinned
    requires DoUnpin(x) !in more
    ensures x in RunFrom(l, capacity, ops + more).tiny.main
    ensures x in RunFrom(l, capacity, ops + more).pinned
    decreases |more|
  {
    if more == [] {
      assert ops + more == ops;
    } else {
      var n := |more| - 1;
      var all := ops + more[..n];
      PinnedStays(l, capacity, ops, more[..n], x);
      ExecStep(l, RunFrom(l, capacity, all), more[n]);
      assert (ops + more)[..|ops + more| - 1] == all;
    }
  }
}
