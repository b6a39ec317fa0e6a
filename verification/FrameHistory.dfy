// What a frame's statistics, and so the SCADS score, mean in terms of the calls made.
module FrameHistory {
  import opened Types
  import opened FrameSpec

  /** How often `x` was got. */
  function Gets(ops: seq<Op>, x: ChunkKey): nat {
    if ops == [] then 0
    else
      var op := ops[|ops| - 1];
      Gets(ops[..|ops| - 1], x) + if op.DoGet? && op.k == x then 1 else 0
  }

  /** The query region of the latest get of `x`, Null if none. */
  function LatestQuery(ops: seq<Op>, x: ChunkKey): Value {
    if ops == [] then Null
    else
      var op := ops[|ops| - 1];
      if op.DoGet? && op.k == x then op.region else LatestQuery(ops[..|ops| - 1], x)
  }

  /** The latest region other than None that `x` was put with, Null if none. */
  function LatestRegion(ops: seq<Op>, x: ChunkKey): Value {
    if ops == [] then Null
    else
      var op := ops[|ops| - 1];
      if op.DoPut? && op.k == x && op.region != Null then op.region else LatestRegion(ops[..|ops| - 1], x)
  }

  /** The frame of `x` tells what happened since it was inserted. */
  ghost predicate Tells(f: FrameVal, since: seq<Op>, x: ChunkKey) {
    && since != [] && since[0].DoPut? && since[0].k == x
    && f.count == Gets(since, x)
    && f.lastQuery == LatestQuery(since, x)
    && f.region == LatestRegion(since, x)
  }

  /** The part of a frame that only calls on its own key change. */
  ghost predicate SameStats(f: FrameVal, g: FrameVal) {
    f.count == g.count && f.lastQuery == g.lastQuery && f.region == g.region
  }

  lemma OthersKeepStats(s: Cache, op: Op, x: ChunkKey)
    requires Inv(s.frames) && x in s.frames.frame && x in Exec(s, op).frames.frame
    requires op.DoPin? || op.DoUnpin? || op.k != x
    ensures SameStats(Exec(s, op).frames.frame[x], s.frames.frame[x])
  {
    if op.DoPut? && op.k !in s.frames.frame && |s.frames.order| >= s.frames.capacity {
      if Evictable(s.frames.frame, s.pinned) {
        var v, after := PutEvicts(s.frames, s.pinned, op.k, op.region);
      } else {
        PutRaises(s.frames, s.pinned, op.k, op.region);
      }
    }
  }

  /** An absent key becomes resident only by a put of it. */
  lemma AppearsByPut(s: Cache, op: Op, x: ChunkKey)
    requires Inv(s.frames) && x !in s.frames.frame && x in Exec(s, op).frames.frame
    ensures op.DoPut? && op.k == x
    ensures Exec(s, op).frames.frame[x] == Newcomer(op.region, s.frames.clock + 1)
  {
    if op.DoPut? {
      if |s.frames.order| < s.frames.capacity {
      } else if Evictable(s.frames.frame, s.pinned) {
        var v, after := PutEvicts(s.frames, s.pinned, op.k, op.region);
      } else {
        PutRaises(s.frames, s.pinned, op.k, op.region);
      }
    }
  }

  lemma TellsStep(s: Cache, since: seq<Op>, op: Op, x: ChunkKey)
    requires Inv(s.frames) && x in s.frames.frame && Tells(s.frames.frame[x], since, x)
    requires x in Exec(s, op).frames.frame
    ensures Tells(Exec(s, op).frames.frame[x], since + [op], x)
  {
    assert (since + [op])[..|since|] == since;
    if op.DoPin? || op.DoUnpin? || op.k != x {
      OthersKeepStats(s, op, x);
    }
  }

  ghost function FromEmpty(policy: Policy, capacity: nat, ops: seq<Op>): Cache
    requires 1 <= capacity
  {
    Run(Cache(Empty(policy, capacity), {}), ops)
  }

  /** `x` is resident after the first `m` calls. */
  ghost predicate Held(policy: Policy, capacity: nat, ops: seq<Op>, m: nat, x: ChunkKey)
    requires 1 <= capacity && m <= |ops|
  {
    x in FromEmpty(policy, capacity, ops[..m]).frames.frame
  }

  /** The present residence of `x` began with call `i`: absent before it and
      resident ever since. */
  ghost predicate ResidentSince(policy: Policy, capacity: nat, ops: seq<Op>, i: nat, x: ChunkKey)
    requires 1 <= capacity
  {
    && i < |ops| && !Held(policy, capacity, ops, i, x)
    && forall m :: i < m <= |ops| ==> Held(policy, capacity, ops, m, x)
  }

  lemma ExtendResidence(policy: Policy, capacity: nat, before: seq<Op>, op: Op, i: nat, x: ChunkKey)
    requires 1 <= capacity && ResidentSince(policy, capacity, before, i, x)
    requires x in FromEmpty(policy, capacity, before + [op]).frames.frame
    ensures ResidentSince(policy, capacity, before + [op], i, x)
  {
    var ops := before + [op];
    assert ops[..|ops|] == ops;
    assert ops[..i] == before[..i];
    forall m | i < m <= |ops|
      ensures Held(policy, capacity, ops, m, x)
    {
      if m <= |before| {
        assert ops[..m] == before[..m];
        assert Held(policy, capacity, before, m, x);
      }
    }
  }

  lemma BeginResidence(policy: Policy, capacity: nat, before: seq<Op>, op: Op, x: ChunkKey)
    requires 1 <= capacity && x !in FromEmpty(policy, capacity, before).frames.frame
    requires x in FromEmpty(policy, capacity, before + [op]).frames.frame
    ensures ResidentSince(policy, capacity, before + [op], |before|, x)
  {
    var ops := before + [op];
    assert ops[..|ops|] == ops && ops[..|before|] == before;
  }

  lemma NewcomerTells(s: Cache, op: Op, x: ChunkKey)
    requires Inv(s.frames) && x !in s.frames.frame && x in Exec(s, op).frames.frame
    ensures Tells(Exec(s, op).frames.frame[x], [op], x)
  {
    AppearsByPut(s, op, x);
    assert [op][..0] == [];
  }

  /** A residence begins once: it has one first call. */
  lemma ResidenceIsUnique(policy: Policy, capacity: nat, ops: seq<Op>, i: nat, j: nat, x: ChunkKey)
    requires 1 <= capacity
    requires ResidentSince(policy, capacity, ops, i, x) && ResidentSince(policy, capacity, ops, j, x)
    ensures i == j
  {
  }

  /** After any run from empty, a resident's access count is the number of gets
      since its insertion at call `i`, its query region is that of the latest of
      these gets, and its region the latest one given. */
  lemma {:induction false} FrameTellsHistory(policy: Policy, capacity: nat, ops: seq<Op>, x: ChunkKey) returns (i: nat)
    requires 1 <= capacity
    requires x in FromEmpty(policy, capacity, ops).frames.frame
    ensures ResidentSince(policy, capacity, ops, i, x)
    ensures Tells(FromEmpty(policy, capacity, ops).frames.frame[x], ops[i..], x)
    decreases |ops|
  {
    var n := |ops| - 1;
    var before, op := ops[..n], ops[n];
    assert ops == before + [op];
    if x in FromEmpty(policy, capacity, before).frames.frame {
      i := FrameTellsHistory(policy, capacity, before, x);
      TellsSnoc(policy, capacity, before, op, i, x);
      ExtendResidence(policy, capacity, before, op, i, x);
    } else {
      i := n;
      TellsFirst(policy, capacity, before, op, x);
      BeginResidence(policy, capacity, before, op, x);
    }
  }

  lemma TellsSnoc(policy: Policy, capacity: nat, before: seq<Op>, op: Op, i: nat, x: ChunkKey)
    requires 1 <= capacity && i < |before|
    requires x in FromEmpty(policy, capacity, before).frames.frame
    requires x in FromEmpty(policy, capacity, before + [op]).frames.frame
    requires Tells(FromEmpty(policy, capacity, before).frames.frame[x], before[i..], x)
    ensures Tells(FromEmpty(policy, capacity, before + [op]).frames.frame[x], (before + [op])[i..], x)
  {
    RunSnoc(Cache(Empty(policy, capacity), {}), before, op);
    assert before[i..] + [op] == (before + [op])[i..];
    TellsStep(FromEmpty(policy, capacity, before), before[i..], op, x);
  }

  lemma TellsFirst(policy: Policy, capacity: nat, before: seq<Op>, op: Op, x: ChunkKey)
    requires 1 <= capacity && x !in FromEmpty(policy, capacity, before).frames.frame
    requires x in FromEmpty(policy, capacity, before + [op]).frames.frame
    ensures Tells(FromEmpty(policy, capacity, before + [op]).frames.frame[x], (before + [op])[|before|..], x)
  {
    RunSnoc(Cache(Empty(policy, capacity), {}), before, op);
    assert (before + [op])[|before|..] == [op];
    NewcomerTells(FromEmpty(policy, capacity, before), op, x);
  }

  /******* Grace and recency *******/

  /** This call would end the grace of a resident `x`: a get of it, or a put that
      evicts while `x` is not pinned. */
  ghost predicate EndsGrace(s: Cache, op: Op, x: ChunkKey) {
    || (op.DoGet? && op.k == x)
    || (op.DoPut? && op.k !in s.frames.frame && |s.frames.order| >= s.frames.capacity &&
        Evictable(s.frames.frame, s.pinned) && x !in s.pinned)
  }

  lemma GraceStep(s: Cache, op: Op, x: ChunkKey)
    requires Inv(s.frames) && x in s.frames.frame && x in Exec(s, op).frames.frame
    ensures Exec(s, op).frames.frame[x].grace <==> s.frames.frame[x].grace && !EndsGrace(s, op, x)
  {
    if op.DoPut? && op.k !in s.frames.frame {
      if |s.frames.order| < s.frames.capacity {
      } else if Evictable(s.frames.frame, s.pinned) {
        var v, after := PutEvicts(s.frames, s.pinned, op.k, op.region);
      } else {
        PutRaises(s.frames, s.pinned, op.k, op.region);
      }
    }
  }

  /** No call after the `i`-th ended the grace of `x`. */
  ghost predicate Undisturbed(policy: Policy, capacity: nat, ops: seq<Op>, i: nat, x: ChunkKey)
    requires 1 <= capacity
  {
    forall m :: i < m < |ops| ==> !EndsGrace(FromEmpty(policy, capacity, ops[..m]), ops[m], x)
  }

  lemma UndisturbedSnoc(policy: Policy, capacity: nat, before: seq<Op>, op: Op, i: nat, x: ChunkKey)
    requires 1 <= capacity && i < |before|
    ensures Undisturbed(policy, capacity, before + [op], i, x) <==>
            Undisturbed(policy, capacity, before, i, x) && !EndsGrace(FromEmpty(policy, capacity, before), op, x)
  {
    var ops := before + [op];
    assert ops[..|before|] == before && ops[|before|] == op;
    assert forall m :: i < m < |before| ==> ops[..m] == before[..m] && ops[m] == before[m];
  }

  lemma ShrinkResidence(policy: Policy, capacity: nat, before: seq<Op>, op: Op, i: nat, x: ChunkKey)
    requires 1 <= capacity && ResidentSince(policy, capacity, before + [op], i, x)
    ensures x in FromEmpty(policy, capacity, before + [op]).frames.frame
    ensures i < |before| ==> ResidentSince(policy, capacity, before, i, x)
    ensures i < |before| ==> x in FromEmpty(policy, capacity, before).frames.frame
    ensures i == |before| ==> x !in FromEmpty(policy, capacity, before).frames.frame
  {
    var ops := before + [op];
    assert Held(policy, capacity, ops, |ops|, x);
    assert ops[..|ops|] == ops && ops[..|before|] == before;
    assert ops[..i] == before[..i];
    if i < |before| {
      forall m | i < m <= |before|
        ensures Held(policy, capacity, before, m, x)
      {
        assert Held(policy, capacity, ops, m, x);
        assert ops[..m] == before[..m];
      }
      assert before[..|before|] == before;
      assert Held(policy, capacity, before, |before|, x);
    }
  }

  /** In every run, pins and raises included, a resident is in its grace exactly
      when, since its present residence began with call `i`, it was not got and
      nothing was evicted while it was unpinned. */
  lemma {:induction false} GraceTellsHistory(policy: Policy, capacity: nat, ops: seq<Op>, i: nat, x: ChunkKey)
    requires 1 <= capacity && ResidentSince(policy, capacity, ops, i, x)
    ensures x in FromEmpty(policy, capacity, ops).frames.frame
    ensures FromEmpty(policy, capacity, ops).frames.frame[x].grace <==> Undisturbed(policy, capacity, ops, i, x)
    decreases |ops|
  {
    var n := |ops| - 1;
    var before, op := ops[..n], ops[n];
    assert ops == before + [op];
    RunSnoc(Cache(Empty(policy, capacity), {}), before, op);
    ShrinkResidence(policy, capacity, before, op, i, x);
    var s := FromEmpty(policy, capacity, before);
    if i < n {
      GraceTellsHistory(policy, capacity, before, i, x);
      GraceStep(s, op, x);
      UndisturbedSnoc(policy, capacity, before, op, i, x);
    } else {
      AppearsByPut(s, op, x);
    }
  }

  /** The clock counts gets and puts. */
  function Ticks(ops: seq<Op>): nat {
    if ops == [] then 0
    else
      var op := ops[|ops| - 1];
      Ticks(ops[..|ops| - 1]) + if op.DoGet? || op.DoPut? then 1 else 0
  }

  /** The time of the latest get or put of `x`, 0 if none. */
  function LastUse(ops: seq<Op>, x: ChunkKey): nat {
    if ops == [] then 0
    else
      var op := ops[|ops| - 1];
      if (op.DoGet? || op.DoPut?) && op.k == x then Ticks(ops) else LastUse(ops[..|ops| - 1], x)
  }

  lemma RecencyStep(s: Cache, op: Op, x: ChunkKey)
    requires Inv(s.frames) && x in Exec(s, op).frames.frame
    ensures
      var now := Exec(s, op).frames.frame[x].recency;
      if (op.DoGet? || op.DoPut?) && op.k == x then now == s.frames.clock + 1
      else x in s.frames.frame && now == s.frames.frame[x].recency
  {
    if op.DoPut? && op.k !in s.frames.frame {
      if |s.frames.order| < s.frames.capacity {
      } else if Evictable(s.frames.frame, s.pinned) {
        var v, after := PutEvicts(s.frames, s.pinned, op.k, op.region);
      } else {
        PutRaises(s.frames, s.pinned, op.k, op.region);
      }
    }
  }

  lemma ClockStep(s: Cache, op: Op)
    requires Inv(s.frames)
    ensures Exec(s, op).frames.clock == s.frames.clock + if op.DoGet? || op.DoPut? then 1 else 0
  {
    if op.DoPut? && op.k !in s.frames.frame && |s.frames.order| >= s.frames.capacity {
      if Evictable(s.frames.frame, s.pinned) {
        var s1 := s.frames.(clock := s.frames.clock + 1);
        var v := EvictRoom(s1, s.frames.clock, s.pinned);
      } else {
        PutRaises(s.frames, s.pinned, op.k, op.region);
      }
    }
  }

  /** In every run a resident's recency is the time of its latest get or put. */
  lemma {:induction false} RecencyTellsHistory(policy: Policy, capacity: nat, ops: seq<Op>, x: ChunkKey)
    requires 1 <= capacity
    ensures FromEmpty(policy, capacity, ops).frames.clock == Ticks(ops)
    ensures x in FromEmpty(policy, capacity, ops).frames.frame ==>
              FromEmpty(policy, capacity, ops).frames.frame[x].recency == LastUse(ops, x)
    decreases |ops|
  {
    if ops != [] {
      var n := |ops| - 1;
      var before, op := ops[..n], ops[n];
      assert ops == before + [op];
      RecencyTellsHistory(policy, capacity, before, x);
      RunSnoc(Cache(Empty(policy, capacity), {}), before, op);
      var s := FromEmpty(policy, capacity, before);
      ClockStep(s, op);
      if x in Exec(s, op).frames.frame {
        RecencyStep(s, op, x);
      }
    }
  }

  /** So the LRU victim was used longest ago among the candidates of its standing. */
  lemma LruVictimIsOldest(capacity: nat, ops: seq<Op>, v: ChunkKey, x: ChunkKey)
    requires 1 <= capacity && Contends(LRU, capacity, ops, v, x)
    ensures LastUse(ops, v) <= LastUse(ops, x)
  {
    RecencyTellsHistory(LRU, capacity, ops, v);
    RecencyTellsHistory(LRU, capacity, ops, x);
    var frame := FromEmpty(LRU, capacity, ops).frames.frame;
    assert frame[v].recency <= frame[x].recency;
  }

  /** After any run `x` is a candidate of the victim's standing. */
  ghost predicate Contends(policy: Policy, capacity: nat, ops: seq<Op>, v: ChunkKey, x: ChunkKey)
    requires 1 <= capacity
  {
    var now := FromEmpty(policy, capacity, ops);
    && IsVictim(policy, now.frames.frame, now.pinned, v)
    && x in now.frames.frame && x !in now.pinned
    && (now.frames.frame[x].grace ==> now.frames.frame[v].grace)
  }

  /** After any run of `LFUCache`, nothing of the victim's standing was got less
      often in its present residence, and nothing that was got as often was used
      longer ago: the victim's residence began at call `i`, the other's at `j`. */
  lemma LfuVictimIsLeastUsed(capacity: nat, ops: seq<Op>, v: ChunkKey, x: ChunkKey) returns (i: nat, j: nat)
    requires 1 <= capacity && Contends(LFU, capacity, ops, v, x)
    ensures ResidentSince(LFU, capacity, ops, i, v) && ResidentSince(LFU, capacity, ops, j, x)
    ensures Gets(ops[i..], v) <= Gets(ops[j..], x)
    ensures Gets(ops[i..], v) == Gets(ops[j..], x) ==> LastUse(ops, v) <= LastUse(ops, x)
  {
    i := FrameTellsHistory(LFU, capacity, ops, v);
    j := FrameTellsHistory(LFU, capacity, ops, x);
    RecencyTellsHistory(LFU, capacity, ops, v);
    RecencyTellsHistory(LFU, capacity, ops, x);
  }

  /** The score of a key whose present residence is `since`, times 100. */
  function Merit(since: seq<Op>, x: ChunkKey): nat {
    var q := LatestQuery(since, x);
    6 * (if Gets(since, x) < 10 then Gets(since, x) else 10) +
    if q != Null && q == LatestRegion(since, x) then 40 else 8
  }

  /** So the score counts at most ten accesses since insertion and rewards a
      latest query from the chunk's own region; a match and a mismatch never tie. */
  lemma ScoreMeans(f: FrameVal, since: seq<Op>, x: ChunkKey)
    requires Tells(f, since, x)
    ensures Score(f) == Merit(since, x)
    ensures
      var q := LatestQuery(since, x);
      Score(f) % 6 == 4 <==> q != Null && q == LatestRegion(since, x)
  {
  }

  /** After any run of `SCADSCache`, nothing of the victim's standing merits less,
      and nothing of equal merit was used longer ago. */
  lemma ScadsVictimMeritsLeast(capacity: nat, ops: seq<Op>, v: ChunkKey, x: ChunkKey) returns (i: nat, j: nat)
    requires 1 <= capacity && Contends(SCADS, capacity, ops, v, x)
    ensures ResidentSince(SCADS, capacity, ops, i, v) && ResidentSince(SCADS, capacity, ops, j, x)
    ensures Merit(ops[i..], v) <= Merit(ops[j..], x)
    ensures Merit(ops[i..], v) == Merit(ops[j..], x) ==> LastUse(ops, v) <= LastUse(ops, x)
  {
    i := FrameTellsHistory(SCADS, capacity, ops, v);
    j := FrameTellsHistory(SCADS, capacity, ops, x);
    RecencyTellsHistory(SCADS, capacity, ops, v);
    RecencyTellsHistory(SCADS, capacity, ops, x);
    var frame := FromEmpty(SCADS, capacity, ops).frames.frame;
    ScoreMeans(frame[v], ops[i..], v);
    ScoreMeans(frame[x], ops[j..], x);
  }
}
