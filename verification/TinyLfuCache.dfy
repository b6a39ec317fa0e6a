// The TinyLFU cache object, proved against TinyLfuSpec.
module TinyLfuCache {
  import opened Types
  import opened KeyLists
  import opened SketchSpec
  import opened TinyLfuSpec
  import CountMinSketch

  class TinyLFUCache {
    const capacity: nat
    const sketch: CountMinSketch.Sketch
    var hits: nat
    var misses: nat
    var pinned: set<ChunkKey>
    var main: seq<ChunkKey>

    ghost predicate Valid()
      reads this, sketch
    {
      sketch.Valid() && 1 <= capacity && |main| <= capacity && Distinct(main)
    }

    ghost function State(): Tiny
      requires Valid()
      reads this, sketch, sketch.table
    {
      Tiny(capacity, main, sketch.State())
    }

    constructor (capacity: nat, hash: (int, ChunkKey) -> int)
      requires capacity > 0
      ensures Valid() && fresh(sketch) && fresh(sketch.table)
      ensures sketch.layout == Layout(512, 4, 1, hash)
      ensures State() == Empty(sketch.layout, capacity).tiny
      ensures pinned == {} && hits == 0 && misses == 0
    {
      this.capacity := capacity;
      sketch := new CountMinSketch.Sketch(Layout(512, 4, 1, hash));
      hits, misses, pinned, main := 0, 0, {}, [];
    }

    method Pin(key: ChunkKey)
      modifies this`pinned
      ensures pinned == old(pinned) + {key}
    {
      pinned := pinned + {key};
    }

    method Unpin(key: ChunkKey)
      modifies this`pinned
      ensures pinned == old(pinned) - {key}
    {
      pinned := pinned - {key};
    }

    method Get(key: ChunkKey) returns (hit: bool)
      requires Valid()
      modifies this, sketch`total, sketch.table
      ensures Valid() && pinned == old(pinned)
      ensures hit == (key in old(main))
      ensures State() == TinyLfuSpec.Get(sketch.layout, old(State()), key)
      ensures hits == old(hits) + (if hit then 1 else 0)
      ensures misses == old(misses) + (if hit then 0 else 1)
    {
      GetStep(sketch.layout, State(), key);
      sketch.Increment(key);
      if key in main {
        main := Del(main, key) + [key];
        hits := hits + 1;
        return true;
      }
      misses := misses + 1;
      return false;
    }

    method Put(key: ChunkKey) returns (raised: bool)
      requires Valid()
      modifies this`main, sketch`total, sketch.table
      ensures Valid()
      ensures Step(State(), raised) == TinyLfuSpec.Put(sketch.layout, old(State()), pinned, key)
    {
      assert Inv(sketch.layout, TinyLfuSpec.Put(sketch.layout, State(), pinned, key).tiny) by {
        PutStep(sketch.layout, State(), pinned, key);
      }
      sketch.Increment(key);
      if key in main {
        main := Del(main, key) + [key];
        return false;
      }
      if |main| < capacity {
        main := main + [key];
        return false;
      }
      raised := Admit(key);
    }

    /** The door of a full cache. */
    method Admit(key: ChunkKey) returns (raised: bool)
      requires Valid() && key !in main && |main| == capacity
      modifies this`main
      ensures raised <==> Victim(old(main), pinned).None?
      ensures
        var t := old(sketch.State());
        main == match Victim(old(main), pinned)
                case None => old(main)
                case Some(v) =>
                  if SketchSpec.Estimate(sketch.layout, t, key) >= SketchSpec.Estimate(sketch.layout, t, v)
                  then Del(old(main), v) + [key] else old(main)
    {
      var victim := FirstUnpinned();
      if victim.None? {
        return true;
      }
      var mine := sketch.Estimate(key);
      var theirs := sketch.Estimate(victim.value);
      if mine >= theirs {
        main := Del(main, victim.value) + [key];
      }
      raised := false;
    }

    method FirstUnpinned() returns (victim: Option<ChunkKey>)
      ensures victim == Victim(main, pinned)
    {
      for i := 0 to |main|
        invariant Victim(main, pinned) == Victim(main[i..], pinned)
      {
        if main[i] !in pinned {
          return Some(main[i]);
        }
        assert main[i..][1..] == main[i + 1..];
      }
      return None;
    }
  }
}
