// The ARC cache object, proved against ArcSpec.
module ArcCache {
  import opened Types
  import opened KeyLists
  import opened ArcSpec
  import opened ArcSafety

  class ARCCache {
    const capacity: nat
    var hits: nat
    var misses: nat
    var pinned: set<ChunkKey>
    var p: int
    var t1: seq<ChunkKey>
    var t2: seq<ChunkKey>
    var b1: seq<ChunkKey>
    var b2: seq<ChunkKey>

    ghost function State(): Arc
      reads this
    {
      Arc(capacity, p, t1, t2, b1, b2)
    }

    ghost predicate Valid()
      reads this
    {
      Inv(State())
    }

    constructor (capacity: nat)
      requires capacity > 0
      ensures Valid() && State() == Empty(capacity)
      ensures pinned == {} && hits == 0 && misses == 0
    {
      this.capacity := capacity;
      hits, misses, pinned := 0, 0, {};
      p, t1, t2, b1, b2 := 0, [], [], [], [];
    }

    method Pin(key: ChunkKey)
      modifies this`pinned
      ensures pinned == old(pinned) + {key}
    {
      pinned := pinned + {key};
    }

    method Unpin(key: ChunkKey)
      modifies this`pinned
      ensures pinned == old(pinned) - {key}
    {
      pinned := pinned - {key};
    }

    method Get(key: ChunkKey) returns (hit: bool)
      requires Valid()
      modifies this
      ensures Valid() && pinned == old(pinned)
      ensures hit == Resident(old(State()), key)
      ensures State() == ArcSpec.Get(old(State()), key)
      ensures hits == old(hits) + (if hit then 1 else 0)
      ensures misses == old(misses) + (if hit then 0 else 1)
    {
      GetKeepsInv(State(), key);
      if key in t1 {
        t1 := Del(t1, key);
        t2 := Assign(t2, key);
        hits := hits + 1;
        return true;
      }
      if key in t2 {
        t2 := Del(t2, key) + [key];
        hits := hits + 1;
        return true;
      }
      misses := misses + 1;
      return false;
    }

    method Put(key: ChunkKey) returns (raised: bool)
      requires Valid()
      modifies this`p, this`t1, this`t2, this`b1, this`b2
      ensures Valid()
      ensures Step(State(), raised) == ArcSpec.Put(old(State()), pinned, key)
    {
      assert Inv(ArcSpec.Put(State(), pinned, key).arc) by {
        PutStep(State(), pinned, key);
      }
      if key in t1 || key in t2 {
        t1 := Without(t1, key);
        t2 := Without(t2, key);
        t2 := Assign(t2, key);
        raised := false;
      } else if key in b1 {
        raised := PutGhost1(key);
      } else if key in b2 {
        raised := PutGhost2(key);
      } else {
        raised := MakeRoom(key);
        if !raised {
          t1 := Assign(t1, key);
        }
      }
    }

    /** Case II: a ghost hit in b1. */
    method PutGhost1(key: ChunkKey) returns (raised: bool)
      requires Valid() && key in b1 && key !in t1 && key !in t2
      modifies this`p, this`t1, this`t2, this`b1, this`b2
      ensures Step(State(), raised) == ArcSpec.Put(old(State()), pinned, key)
    {
      ReplaceKeepsGhosts(RaiseTarget(State()), pinned, key);
      p := Min(capacity, p + Max(1, |b2| / Max(1, |b1|)));
      raised := Replace(key);
      if !raised {
        b1 := Del(b1, key);
        t2 := Assign(t2, key);
      }
    }

    /** Case III: a ghost hit in b2. */
    method PutGhost2(key: ChunkKey) returns (raised: bool)
      requires Valid() && key in b2 && key !in t1 && key !in t2 && key !in b1
      modifies this`p, this`t1, this`t2, this`b1, this`b2
      ensures Step(State(), raised) == ArcSpec.Put(old(State()), pinned, key)
    {
      ReplaceKeepsGhosts(LowerTarget(State()), pinned, key);
      p := Max(0, p - Max(1, |b1| / Max(1, |b2|)));
      raised := Replace(key);
      if !raised {
        b2 := Del(b2, key);
        t2 := Assign(t2, key);
      }
    }

    /** Case IV: manage the list sizes for a brand-new key. */
    method MakeRoom(key: ChunkKey) returns (raised: bool)
      requires Valid()
      modifies this`t1, this`t2, this`b1, this`b2
      ensures Step(State(), raised) == ArcSpec.MakeRoom(old(State()), pinned, key)
    {
      raised := false;
      if |t1| + |b1| == capacity {
        if |t1| < capacity {
          b1 := b1[1..];
          raised := Replace(key);
        } else {
          var rest, victim := PopLruUnpinned(t1);
          t1 := rest;
          raised := victim.None?;
        }
      } else {
        var total := |t1| + |t2| + |b1| + |b2|;
        if total >= capacity {
          if total == 2 * capacity {
            b2 := b2[1..];
          }
          raised := Replace(key);
        }
      }
    }

    method Replace(incoming: ChunkKey) returns (raised: bool)
      modifies this`t1, this`t2, this`b1, this`b2
      ensures Step(State(), raised) == ArcSpec.Replace(old(State()), pinned, incoming)
    {
      var preferT1 := t1 != [] && (|t1| > p || (incoming in b2 && |t1| == p));
      if preferT1 {
        var rest, victim := PopLruUnpinned(t1);
        t1 := rest;
        if victim.Some? {
          b1 := Assign(b1, victim.value);
          return false;
        }
        rest, victim := PopLruUnpinned(t2);
        t2 := rest;
        if victim.None? {
          return true;
        }
        b2 := Assign(b2, victim.value);
      } else {
        var rest, victim := PopLruUnpinned(t2);
        t2 := rest;
        if victim.Some? {
          b2 := Assign(b2, victim.value);
          return false;
        }
        rest, victim := PopLruUnpinned(t1);
        t1 := rest;
        if victim.None? {
          return true;
        }
        b1 := Assign(b1, victim.value);
      }
      return false;
    }

    /** Scan from the oldest key; cut out the first unpinned one. */
    method PopLruUnpinned(od: seq<ChunkKey>) returns (rest: seq<ChunkKey>, victim: Option<ChunkKey>)
      ensures victim == Victim(od, pinned)
      ensures rest == if victim.Some? then Del(od, victim.value) else od
    {
      for i := 0 to |od|
        invariant Victim(od, pinned) == Victim(od[i..], pinned)
      {
        if od[i] !in pinned {
          return Del(od, od[i]), Some(od[i]);
        }
        assert od[i..][1..] == od[i + 1..];
      }
      return od, None;
    }
  }
}
