// The sketch object: a two-dimensional array updated in place.
module CountMinSketch {
  import opened Types
  import opened SketchSpec

  class Sketch {
    const layout: Layout
    const table: array2<nat>
    const sample: nat
    var total: nat

    ghost predicate Valid()
      reads this
    {
      && Sound(layout)
      && table.Length0 == layout.depth && table.Length1 == layout.width
      && sample == 8 * layout.width
    }

    /** The counters as a value. */
    ghost function State(): (t: Table)
      requires Valid()
      reads this, table
      ensures Fits(layout, t)
    {
      Table(seq(layout.depth, i requires 0 <= i < layout.depth reads this, table =>
                  seq(layout.width, j requires 0 <= j < layout.width reads this, table => table[i, j])),
            total)
    }

    constructor (layout: Layout)
      requires Sound(layout)
      ensures Valid() && fresh(table) && this.layout == layout
      ensures State() == Zero(layout)
    {
      this.layout := layout;
      table := new nat[layout.depth, layout.width]((_, _) => 0);
      sample := layout.width * 8;
      total := 0;
      new;
      assert forall i :: 0 <= i < layout.depth ==> State().rows[i] == Zero(layout).rows[i];
    }

    method Increment(key: ChunkKey)
      requires Valid()
      modifies this`total, table
      ensures State() == SketchSpec.Increment(layout, old(State()), key)
    {
      total := total + 1;
      for i := 0 to layout.depth
        invariant total == old(total) + 1
        invariant forall r, j :: 0 <= r < layout.depth && 0 <= j < layout.width ==>
                    table[r, j] == old(table[r, j]) + if r < i && j == Idx(layout, key, r) then 1 else 0
      {
        table[i, Idx(layout, key, i)] := table[i, Idx(layout, key, i)] + 1;
      }
      assert State() == Bump(layout, old(State()), key) by {
        assert forall r :: 0 <= r < layout.depth ==>
            State().rows[r] == Bump(layout, old(State()), key).rows[r];
      }
      if total >= sample {
        Age();
      }
    }

    method Age()
      requires Valid()
      modifies this`total, table
      ensures State() == SketchSpec.Age(layout, old(State()))
    {
      for i := 0 to layout.depth
        invariant total == old(total)
        invariant forall r, j :: 0 <= r < layout.depth && 0 <= j < layout.width ==>
                    table[r, j] == if r < i then old(table[r, j]) / 2 else old(table[r, j])
      {
        for j := 0 to layout.width
          invariant total == old(total)
          invariant forall r, c :: 0 <= r < layout.depth && 0 <= c < layout.width ==>
                      table[r, c] == if r < i || (r == i && c < j) then old(table[r, c]) / 2 else old(table[r, c])
        {
          table[i, j] := table[i, j] / 2;
        }
      }
      total := total / 2;
      assert forall r :: 0 <= r < layout.depth ==> State().rows[r] == Halve(old(State()).rows[r]);
    }

    method Estimate(key: ChunkKey) returns (e: nat)
      requires Valid()
      ensures e == SketchSpec.Estimate(layout, State(), key)
    {
      ghost var t := State();
      e := table[0, Idx(layout, key, 0)];
      for i := 1 to layout.depth
        invariant e == MinCell(layout, t, key, i)
      {
        var cell := table[i, Idx(layout, key, i)];
        assert t.rows[i][Idx(layout, key, i)] == cell;
        if cell < e {
          e := cell;
        }
      }
    }
  }
}
