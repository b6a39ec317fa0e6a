// The frame cache object: a dictionary of mutable frames, proved against FrameSpec.
module FrameCache {
  import opened Types
  import opened KeyLists
  import opened FrameSpec

  class Frame {
    var region: Value
    var accessCount: nat
    var lastQueryRegion: Value
    var grace: bool
    var recency: nat
    ghost const key: ChunkKey

    function Val(): FrameVal
      reads this
    {
      FrameVal(region, accessCount, lastQueryRegion, grace, recency)
    }

    constructor (ghost key: ChunkKey, region: Value, recency: nat)
      ensures Val() == Newcomer(region, recency) && this.key == key
    {
      this.key := key;
      this.region := region;
      accessCount := 0;
      lastQueryRegion := Null;
      grace := true;
      this.recency := recency;
    }

    method Access(now: nat, queryRegion: Value)
      modifies this
      ensures Val() == Accessed(old(Val()), now, queryRegion)
    {
      accessCount := accessCount + 1;
      recency := now;
      lastQueryRegion := queryRegion;
      grace := false;
    }

    method Refresh(now: nat, newRegion: Value)
      modifies this
      ensures Val() == Refreshed(old(Val()), now, newRegion)
    {
      if newRegion != Null {
        region := newRegion;
      }
      recency := now;
    }
  }

  class FrameCache {
    const policy: Policy
    const capacity: nat
    var hits: nat
    var misses: nat
    var pinned: set<ChunkKey>
    var clock: nat
    var order: seq<ChunkKey>
    var frames: map<ChunkKey, Frame>

    ghost var table: map<ChunkKey, FrameVal>  // the frames as values
    ghost var repr: set<Frame>                // the frame objects

    /** Every key has a frame object of its own, whose fields `table` mirrors. */
    ghost predicate Valid()
      reads this, repr
    {
      && frames.Keys == Keys(order) == table.Keys
      && forall x :: x in frames ==> frames[x] in repr && frames[x].key == x && frames[x].Val() == table[x]
    }

    /** Valid but for the mirror of one frame. */
    ghost predicate ValidBut(key: ChunkKey)
      reads this, repr
    {
      && frames.Keys == Keys(order) == table.Keys && key in frames
      && forall x :: x in frames ==>
           frames[x] in repr && frames[x].key == x && (x != key ==> frames[x].Val() == table[x])
    }

    ghost method Mirror(key: ChunkKey)
      requires ValidBut(key)
      modifies this`table
      ensures Valid() && table == old(table)[key := frames[key].Val()]
    {
      table := table[key := frames[key].Val()];
    }

    constructor (policy: Policy, capacity: nat)
      requires capacity > 0
      ensures Valid() && Frames(this.policy, this.capacity, clock, order, table) == Empty(policy, capacity)
      ensures repr == {} && pinned == {} && hits == 0 && misses == 0
    {
      this.policy := policy;
      this.capacity := capacity;
      hits, misses, pinned, clock := 0, 0, {}, 0;
      order, frames, table, repr := [], map[], map[], {};
    }

    method Pin(key: ChunkKey)
      modifies this`pinned
      ensures pinned == old(pinned) + {key}
    {
      pinned := pinned + {key};
    }

    method Unpin(key: ChunkKey)
      modifies this`pinned
      ensures pinned == old(pinned) - {key}
    {
      pinned := pinned - {key};
    }

    method Get(key: ChunkKey, queryRegion: Value) returns (hit: bool)
      requires Valid()
      modifies this`clock, this`hits, this`misses, this`table, repr
      ensures Valid() && hit == (key in old(table))
      ensures Frames(policy, capacity, clock, order, table) ==
              FrameSpec.Get(old(Frames(policy, capacity, clock, order, table)), key, queryRegion)
      ensures hits == old(hits) + (if hit then 1 else 0)
      ensures misses == old(misses) + (if hit then 0 else 1)
    {
      ghost var s := Frames(policy, capacity, clock, order, table);
      clock := clock + 1;
      hit := key in frames;
      if hit {
        Access(key, queryRegion);
        assert table == s.frame[key := Accessed(s.frame[key], clock, queryRegion)];
        hits := hits + 1;
      } else {
        misses := misses + 1;
      }
      GetUnfolds(s, key, queryRegion);
    }

    method Access(key: ChunkKey, queryRegion: Value)
      requires Valid() && key in frames
      modifies this`table, repr
      ensures Valid() && table == old(table)[key := Accessed(old(table)[key], clock, queryRegion)]
    {
      frames[key].Access(clock, queryRegion);
      Mirror(key);
    }

    method EndGrace(key: ChunkKey)
      requires Valid() && key in frames
      modifies this`table, repr
      ensures Valid() && table == old(table)[key := old(table)[key].(grace := false)]
    {
      frames[key].grace := false;
      Mirror(key);
    }

    method Refresh(key: ChunkKey, region: Value)
      requires Valid() && key in frames
      modifies this`table, repr
      ensures Valid() && table == old(table)[key := Refreshed(old(table)[key], clock, region)]
    {
      frames[key].Refresh(clock, region);
      Mirror(key);
    }

    method Put(key: ChunkKey, region: Value) returns (raised: bool)
      requires Valid()
      modifies this`clock, this`order, this`frames, this`table, this`repr, repr
      ensures Valid() && fresh(repr - old(repr))
      ensures Step(Frames(policy, capacity, clock, order, table), raised) ==
              FrameSpec.Put(old(Frames(policy, capacity, clock, order, table)), pinned, key, region)
    {
      ghost var s := Frames(policy, capacity, clock, order, table);
      clock := clock + 1;
      ghost var s1 := Frames(policy, capacity, clock, order, table);
      if key in frames {
        Refresh(key, region);
        assert table == s.frame[key := Refreshed(s.frame[key], clock, region)];
        raised := false;
      } else {
        raised := PutNew(key, region);
      }
      PutUnfolds(s, s1, pinned, key, region);
    }

    method PutNew(key: ChunkKey, region: Value) returns (raised: bool)
      requires Valid() && key !in table
      modifies this`order, this`frames, this`table, this`repr, repr
      ensures Valid() && fresh(repr - old(repr))
      ensures Step(Frames(policy, capacity, clock, order, table), raised) ==
              FrameSpec.PutNew(old(Frames(policy, capacity, clock, order, table)), pinned, key, region)
    {
      if |order| >= capacity {
        raised := Evict();
        if raised {
          return;
        }
      }
      Insert(key, region);
      raised := false;
    }

    method Insert(key: ChunkKey, region: Value)
      requires Valid() && key !in table
      modifies this`order, this`frames, this`table, this`repr
      ensures Valid() && fresh(repr - old(repr))
      ensures Frames(policy, capacity, clock, order, table) ==
              FrameSpec.Insert(old(Frames(policy, capacity, clock, order, table)), key, Newcomer(region, clock))
    {
      var f := new Frame(key, region, clock);
      frames := frames[key := f];
      order := order + [key];
      table := table[key := Newcomer(region, clock)];
      repr := repr + {f};
      KeysSnoc(old(order), key);
    }

    method Evict() returns (raised: bool)
      requires Valid()
      modifies this`order, this`frames, this`table, repr
      ensures Valid()
      ensures Step(Frames(policy, capacity, clock, order, table), raised) ==
              FrameSpec.Evict(old(Frames(policy, capacity, clock, order, table)), pinned)
    {
      var candidates := Candidates(order, pinned);
      if candidates == [] {
        return true;
      }
      assert forall x :: x in order ==> x in Keys(order);
      var nonGrace := NonGrace(candidates);
      var pool := if nonGrace != [] then nonGrace else candidates;
      var victim := SelectVictim(pool);
      Drop(candidates, victim);
      EvictedIsSpared(old(table), pinned, victim, table);
      return false;
    }

    /** Delete the victim, then clear the grace of the other candidates. */
    method Drop(candidates: seq<ChunkKey>, victim: ChunkKey)
      requires Valid() && candidates == Candidates(order, pinned) && victim in candidates
      modifies this`order, this`frames, this`table, repr
      ensures Valid()
      ensures order == Without(old(order), victim)
      ensures Evicted(old(table), pinned, victim, table)
    {
      frames := map x | x in frames && x != victim :: frames[x];
      table := map x | x in table && x != victim :: table[x];
      order := Del(order, victim);
      assert Keys(order) == old(Keys(order)) - {victim};
      assert forall x :: x in old(order) <==> x in old(Keys(order));
      CandidatesAre(old(order), pinned);
      ClearGrace(candidates, victim);
    }

    method NonGrace(candidates: seq<ChunkKey>) returns (r: seq<ChunkKey>)
      requires Valid() && forall x :: x in candidates ==> x in frames
      ensures r == Candidates(candidates, Graced(table))
    {
      r := [];
      for i := |candidates| downto 0
        invariant r == Candidates(candidates[i..], Graced(table))
      {
        assert candidates[i..][1..] == candidates[i + 1..];
        if !frames[candidates[i]].grace {
          r := [candidates[i]] + r;
        }
      }
    }

    method SelectVictim(pool: seq<ChunkKey>) returns (v: ChunkKey)
      requires Valid() && pool != [] && forall x :: x in pool ==> x in frames
      ensures v == FrameSpec.SelectVictim(Frames(policy, capacity, clock, order, table), pool)
    {
      ghost var s := Frames(policy, capacity, clock, order, table);
      assert forall x :: x in pool ==> x in s.frame && frames[x].Val() == s.frame[x];
      v := pool[0];
      for i := 1 to |pool|
        invariant v == FrameSpec.SelectVictim(s, pool[..i])
      {
        SelectNext(s, pool, i);
        if Below(policy, frames[pool[i]].Val(), frames[v].Val()) {
          v := pool[i];
        }
      }
      assert pool[..|pool|] == pool;
    }

    method ClearGrace(candidates: seq<ChunkKey>, victim: ChunkKey)
      requires Valid() && forall x :: x in candidates && x != victim ==> x in frames
      modifies this`table, repr
      ensures Valid()
      ensures table.Keys == old(table).Keys
      ensures forall x :: x in table ==>
                table[x] == if x in candidates && x != victim then old(table)[x].(grace := false) else old(table)[x]
    {
      for i := 0 to |candidates|
        invariant Valid()
        invariant table.Keys == old(table).Keys
        invariant forall x :: x in table ==>
                    table[x] == if x in candidates[..i] && x != victim then old(table)[x].(grace := false)
                                else old(table)[x]
      {
        assert candidates[..i + 1] == candidates[..i] + [candidates[i]];
        if candidates[i] != victim {
          EndGrace(candidates[i]);
        }
      }
    }
  }
}
