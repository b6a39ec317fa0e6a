// The Count-Min sketch with aging, as a function of the keys counted so far.
module SketchSpec {
  import opened Types
  import opened KeyLists
  import opened LruStack

  /** Python's `hash` of (row seed, key) is an arbitrary function. */
  datatype Layout = Layout(width: nat, depth: nat, seed: int, hash: (int, ChunkKey) -> int)

  datatype Table = Table(rows: seq<seq<nat>>, total: nat)

  ghost predicate Sound(l: Layout) {
    l.width >= 1 && l.depth >= 1
  }

  ghost predicate Fits(l: Layout, t: Table) {
    |t.rows| == l.depth && forall i :: 0 <= i < l.depth ==> |t.rows[i]| == l.width
  }

  function Idx(l: Layout, key: ChunkKey, row: nat): (j: nat)
    requires l.width >= 1
    ensures j < l.width
  {
    l.hash(l.seed * 131 + row * 977 + 7, key) % l.width
  }

  function Zero(l: Layout): (t: Table)
    ensures Fits(l, t)
  {
    Table(seq(l.depth, _ => seq(l.width, _ => 0)), 0)
  }

  function Bump(l: Layout, t: Table, key: ChunkKey): (r: Table)
    requires Sound(l) && Fits(l, t)
    ensures Fits(l, r)
  {
    Table(seq(l.depth, i requires 0 <= i < l.depth =>
                t.rows[i][Idx(l, key, i) := t.rows[i][Idx(l, key, i)] + 1]),
          t.total + 1)
  }

  function Halve(row: seq<nat>): seq<nat> {
    seq(|row|, j requires 0 <= j < |row| => row[j] / 2)
  }

  function Age(l: Layout, t: Table): (r: Table)
    requires Fits(l, t)
    ensures Fits(l, r)
  {
    Table(seq(l.depth, i requires 0 <= i < l.depth => Halve(t.rows[i])), t.total / 2)
  }

  function Increment(l: Layout, t: Table, key: ChunkKey): (r: Table)
    requires Sound(l) && Fits(l, t)
    ensures Fits(l, r)
  {
    var b := Bump(l, t, key);
    if b.total >= 8 * l.width then Age(l, b) else b
  }

  /** The smallest of the key's cells in the first `n` rows. */
  function MinCell(l: Layout, t: Table, key: ChunkKey, n: nat): nat
    requires Sound(l) && Fits(l, t) && 1 <= n <= l.depth
  {
    var last := t.rows[n - 1][Idx(l, key, n - 1)];
    if n == 1 then last
    else
      var e := MinCell(l, t, key, n - 1);
      if e <= last then e else last
  }

  function Estimate(l: Layout, t: Table, key: ChunkKey): nat
    requires Sound(l) && Fits(l, t)
  {
    MinCell(l, t, key, l.depth)
  }

  /** The estimate is one of the key's cells and at most each of them. */
  lemma {:induction false} MinCellIsLeast(l: Layout, t: Table, key: ChunkKey, n: nat) returns (row: nat)
    requires Sound(l) && Fits(l, t) && 1 <= n <= l.depth
    ensures row < n && MinCell(l, t, key, n) == t.rows[row][Idx(l, key, row)]
    ensures forall i :: 0 <= i < n ==> MinCell(l, t, key, n) <= t.rows[i][Idx(l, key, i)]
  {
    row := n - 1;
    if n > 1 {
      var r := MinCellIsLeast(l, t, key, n - 1);
      if MinCell(l, t, key, n - 1) <= t.rows[row][Idx(l, key, row)] {
        row := r;
      }
    }
  }

  /******* The exact aged counters *******/

  ghost function Run(l: Layout, h: seq<ChunkKey>): (t: Table)
    requires Sound(l)
    ensures Fits(l, t)
  {
    if h == [] then Zero(l) else Increment(l, Run(l, h[..|h| - 1]), h[|h| - 1])
  }

  /** The increment counter after `n` increments. */
  function Total(width: nat, n: nat): nat {
    if n == 0 then 0
    else
      var t := Total(width, n - 1) + 1;
      if t >= 8 * width then t / 2 else t
  }

  /** Does the `n`-th increment trigger aging? */
  predicate Ages(width: nat, n: nat)
    requires n > 0
  {
    Total(width, n - 1) + 1 >= 8 * width
  }

  /** One exact counter per key, bumped and floor-halved together with the sketch. */
  function Exact(width: nat, h: seq<ChunkKey>, k: ChunkKey): nat
    decreases |h|, 1
  {
    if h == [] then 0
    else
      var e := Bumped(width, h, k);
      if Ages(width, |h|) then e / 2 else e
  }

  function Bumped(width: nat, h: seq<ChunkKey>, k: ChunkKey): nat
    requires h != []
    decreases |h|, 0
  {
    Exact(width, h[..|h| - 1], k) + if h[|h| - 1] == k then 1 else 0
  }

  ghost function ExactOf(width: nat, h: seq<ChunkKey>): ChunkKey -> nat {
    k => Exact(width, h, k)
  }

  ghost function BumpedOf(width: nat, h: seq<ChunkKey>): ChunkKey -> nat
    requires h != []
  {
    k => Bumped(width, h, k)
  }

  /** Total count of the listed keys that hash to cell `j` of row `i`. */
  ghost function Load(l: Layout, count: ChunkKey -> nat, i: nat, j: nat, keys: seq<ChunkKey>): nat
    requires Sound(l)
  {
    if keys == [] then 0
    else
      var n := |keys| - 1;
      Load(l, count, i, j, keys[..n]) + if Idx(l, keys[n], i) == j then count(keys[n]) else 0
  }

  /** How many of the listed keys hash there. */
  ghost function Sharers(l: Layout, i: nat, j: nat, keys: seq<ChunkKey>): nat
    requires Sound(l)
  {
    if keys == [] then 0
    else
      var n := |keys| - 1;
      Sharers(l, i, j, keys[..n]) + if Idx(l, keys[n], i) == j then 1 else 0
  }

  /** A cell is 0 if no counted key hashes there; otherwise it is at least the
      exact sum and exceeds it by less than the number of keys sharing it. */
  ghost predicate Close(cell: nat, load: nat, sharers: nat) {
    if sharers == 0 then cell == 0 && load == 0
    else load <= cell < load + sharers
  }

  lemma {:induction false} LoadBump(l: Layout, c: ChunkKey -> nat, c': ChunkKey -> nat,
                                    k: ChunkKey, i: nat, j: nat, keys: seq<ChunkKey>)
    requires Sound(l) && Distinct(keys)
    requires forall x :: c'(x) == c(x) + if x == k then 1 else 0
    ensures Load(l, c', i, j, keys) ==
            Load(l, c, i, j, keys) + if k in keys && Idx(l, k, i) == j then 1 else 0
  {
    if keys != [] {
      var n := |keys| - 1;
      LoadBump(l, c, c', k, i, j, keys[..n]);
      assert keys == keys[..n] + [keys[n]];
      assert keys[n] !in keys[..n];
    }
  }

  lemma {:induction false} LoadHalve(l: Layout, c: ChunkKey -> nat, c': ChunkKey -> nat,
                                     i: nat, j: nat, keys: seq<ChunkKey>)
    requires Sound(l)
    requires forall x :: c'(x) == c(x) / 2
    ensures
      var load, load' := Load(l, c, i, j, keys), Load(l, c', i, j, keys);
      2 * load' <= load <= 2 * load' + Sharers(l, i, j, keys)
  {
    if keys != [] {
      LoadHalve(l, c, c', i, j, keys[..|keys| - 1]);
    }
  }

  lemma {:induction false} LoadSame(l: Layout, c: ChunkKey -> nat, c': ChunkKey -> nat,
                                    i: nat, j: nat, keys: seq<ChunkKey>)
    requires Sound(l)
    requires forall x :: c'(x) == c(x)
    ensures Load(l, c, i, j, keys) == Load(l, c', i, j, keys)
  {
    if keys != [] {
      LoadSame(l, c, c', i, j, keys[..|keys| - 1]);
    }
  }

  lemma CloseHalve(cell: nat, load: nat, load': nat, sharers: nat)
    requires Close(cell, load, sharers) && 2 * load' <= load <= 2 * load' + sharers
    ensures Close(cell / 2, load', sharers)
  {
  }

  lemma {:induction false} UnseenIsZero(width: nat, h: seq<ChunkKey>, k: ChunkKey)
    requires k !in h
    ensures Exact(width, h, k) == 0
  {
    if h != [] {
      UnseenIsZero(width, h[..|h| - 1], k);
    }
  }

  lemma {:induction false} TotalAgrees(l: Layout, h: seq<ChunkKey>)
    requires Sound(l)
    ensures Run(l, h).total == Total(l.width, |h|) < 8 * l.width
  {
    if h != [] {
      TotalAgrees(l, h[..|h| - 1]);
    }
  }

  /** Before aging: one more count in the key's cell on both sides. */
  lemma BumpStep(l: Layout, h: seq<ChunkKey>, i: nat, j: nat)
    requires Sound(l) && h != [] && i < l.depth && j < l.width
    requires
      var before := h[..|h| - 1];
      var keys := FirstSeen(before);
      Close(Run(l, before).rows[i][j], Load(l, ExactOf(l.width, before), i, j, keys), Sharers(l, i, j, keys))
    ensures
      var keys := FirstSeen(h);
      Close(Bump(l, Run(l, h[..|h| - 1]), h[|h| - 1]).rows[i][j],
            Load(l, BumpedOf(l.width, h), i, j, keys), Sharers(l, i, j, keys))
  {
    var before, k := h[..|h| - 1], h[|h| - 1];
    var keys := FirstSeen(before);
    FirstSeenKeys(before);
    LoadBump(l, ExactOf(l.width, before), BumpedOf(l.width, h), k, i, j, keys);
    if k !in keys {
      UnseenIsZero(l.width, before, k);
      assert (keys + [k])[..|keys|] == keys;
    } else if Idx(l, k, i) == j {
      SharerCounts(l, k, i, keys);
    }
  }

  lemma {:induction false} SharerCounts(l: Layout, k: ChunkKey, i: nat, keys: seq<ChunkKey>)
    requires Sound(l) && k in keys
    ensures Sharers(l, i, Idx(l, k, i), keys) >= 1
  {
    var n := |keys| - 1;
    if keys[n] != k {
      assert keys == keys[..n] + [keys[n]];
      SharerCounts(l, k, i, keys[..n]);
    }
  }

  /** After any number of increments and agings every cell is close to the
      exact sum of the keys hashed to it. */
  lemma {:induction false} CellIsClose(l: Layout, h: seq<ChunkKey>, i: nat, j: nat)
    requires Sound(l) && i < l.depth && j < l.width
    ensures
      var keys := FirstSeen(h);
      Close(Run(l, h).rows[i][j], Load(l, ExactOf(l.width, h), i, j, keys), Sharers(l, i, j, keys))
  {
    if h != [] {
      var before := h[..|h| - 1];
      CellIsClose(l, before, i, j);
      BumpStep(l, h, i, j);
      TotalAgrees(l, before);
      var keys := FirstSeen(h);
      var bumped := Bump(l, Run(l, before), h[|h| - 1]);
      if Ages(l.width, |h|) {
        LoadHalve(l, BumpedOf(l.width, h), ExactOf(l.width, h), i, j, keys);
        CloseHalve(bumped.rows[i][j], Load(l, BumpedOf(l.width, h), i, j, keys),
                   Load(l, ExactOf(l.width, h), i, j, keys), Sharers(l, i, j, keys));
        assert Run(l, h).rows[i] == Halve(bumped.rows[i]);
      } else {
        LoadSame(l, BumpedOf(l.width, h), ExactOf(l.width, h), i, j, keys);
      }
    }
  }

  /******* What the estimate means *******/

  lemma {:induction false} LoadHasKey(l: Layout, c: ChunkKey -> nat, k: ChunkKey, i: nat, keys: seq<ChunkKey>)
    requires Sound(l) && k in keys
    ensures Load(l, c, i, Idx(l, k, i), keys) >= c(k)
  {
    var n := |keys| - 1;
    if keys[n] != k {
      assert keys == keys[..n] + [keys[n]];
      LoadHasKey(l, c, k, i, keys[..n]);
    }
  }

  /** The estimate never undercounts. */
  lemma NeverUndercounts(l: Layout, h: seq<ChunkKey>, k: ChunkKey)
    requires Sound(l)
    ensures Estimate(l, Run(l, h), k) >= Exact(l.width, h, k)
  {
    var t := Run(l, h);
    var i := MinCellIsLeast(l, t, k, l.depth);
    CellIsClose(l, h, i, Idx(l, k, i));
    FirstSeenKeys(h);
    if k in h {
      LoadHasKey(l, ExactOf(l.width, h), k, i, FirstSeen(h));
    } else {
      UnseenIsZero(l.width, h, k);
    }
  }

  /** No other counted key shares the key's cell in this row. */
  ghost predicate Alone(l: Layout, h: seq<ChunkKey>, k: ChunkKey, i: nat)
    requires Sound(l)
  {
    forall x :: x in h && x != k ==> Idx(l, x, i) != Idx(l, k, i)
  }

  lemma {:induction false} AloneLoad(l: Layout, c: ChunkKey -> nat, k: ChunkKey, i: nat, keys: seq<ChunkKey>)
    requires Sound(l) && Distinct(keys)
    requires forall x :: x in keys && x != k ==> Idx(l, x, i) != Idx(l, k, i)
    ensures Load(l, c, i, Idx(l, k, i), keys) == if k in keys then c(k) else 0
    ensures Sharers(l, i, Idx(l, k, i), keys) == if k in keys then 1 else 0
  {
    if keys != [] {
      var n := |keys| - 1;
      assert keys == keys[..n] + [keys[n]];
      assert keys[n] !in keys[..n];
      AloneLoad(l, c, k, i, keys[..n]);
    }
  }

  /** One collision-free row makes the estimate exact. */
  lemma ExactWhenAlone(l: Layout, h: seq<ChunkKey>, k: ChunkKey, i: nat)
    requires Sound(l) && i < l.depth && Alone(l, h, k, i)
    ensures Estimate(l, Run(l, h), k) == Exact(l.width, h, k)
  {
    CellIsClose(l, h, i, Idx(l, k, i));
    FirstSeenKeys(h);
    AloneLoad(l, ExactOf(l.width, h), k, i, FirstSeen(h));
    var _ := MinCellIsLeast(l, Run(l, h), k, l.depth);
    NeverUndercounts(l, h, k);
    if k !in h {
      UnseenIsZero(l.width, h, k);
    }
  }

  /** In terms of Python's `hash`: if in some row no other counted key has the
      remainder of `k`'s hash, the estimate of `k` is its exact aged count. */
  lemma ExactWhenHashesDiffer(l: Layout, h: seq<ChunkKey>, k: ChunkKey, i: nat)
    requires Sound(l) && i < l.depth
    requires forall x :: x in h && x != k ==>
               l.hash(l.seed * 131 + i * 977 + 7, x) % l.width != l.hash(l.seed * 131 + i * 977 + 7, k) % l.width
    ensures Estimate(l, Run(l, h), k) == Exact(l.width, h, k)
  {
    ExactWhenAlone(l, h, k, i);
  }

  /** For example a key never counted is estimated 0 after one increment of a key
      with another remainder in some row. */
  lemma OtherKeyUncounted(l: Layout, a: ChunkKey, b: ChunkKey, i: nat)
    requires Sound(l) && i < l.depth && a != b
    requires l.hash(l.seed * 131 + i * 977 + 7, a) % l.width != l.hash(l.seed * 131 + i * 977 + 7, b) % l.width
    ensures Estimate(l, Run(l, [a]), b) == 0
  {
    ExactWhenHashesDiffer(l, [a], b, i);
    UnseenIsZero(l.width, [a], b);
  }

  /** An increment adds one to exactly the cell numbered by that remainder, in
      every row; every 8 * width increments all cells are then halved. */
  lemma IncrementHits(l: Layout, t: Table, k: ChunkKey, i: nat, j: nat)
    requires Sound(l) && Fits(l, t) && i < l.depth && j < l.width
    ensures
      var counted := t.rows[i][j] + if l.hash(l.seed * 131 + i * 977 + 7, k) % l.width == j then 1 else 0;
      Increment(l, t, k).rows[i][j] == if t.total + 1 >= 8 * l.width then counted / 2 else counted
  {
    assert Bump(l, t, k).rows[i][j] ==
           t.rows[i][j] + if l.hash(l.seed * 131 + i * 977 + 7, k) % l.width == j then 1 else 0;
  }

  /** The estimate is the smallest of the cells so numbered. */
  lemma EstimateIsLeast(l: Layout, t: Table, k: ChunkKey) returns (row: nat)
    requires Sound(l) && Fits(l, t)
    ensures row < l.depth
    ensures Estimate(l, t, k) == t.rows[row][l.hash(l.seed * 131 + row * 977 + 7, k) % l.width]
    ensures forall i :: 0 <= i < l.depth ==>
              Estimate(l, t, k) <= t.rows[i][l.hash(l.seed * 131 + i * 977 + 7, k) % l.width]
  {
    row := MinCellIsLeast(l, t, k, l.depth);
    forall i | 0 <= i < l.depth
      ensures Estimate(l, t, k) <= t.rows[i][l.hash(l.seed * 131 + i * 977 + 7, k) % l.width]
    {
      assert Estimate(l, t, k) <= t.rows[i][Idx(l, k, i)];
    }
  }

  /******* Bounded counters *******/

  function Sum(row: seq<nat>): nat {
    if row == [] then 0 else Sum(row[..|row| - 1]) + row[|row| - 1]
  }

  lemma {:induction false} SumBump(row: seq<nat>, j: nat)
    requires j < |row|
    ensures Sum(row[j := row[j] + 1]) == Sum(row) + 1
  {
    var n := |row| - 1;
    var r := row[j := row[j] + 1];
    if j < n {
      SumBump(row[..n], j);
      assert r[..n] == row[..n][j := row[j] + 1];
    } else {
      assert r[..n] == row[..n];
    }
  }

  lemma {:induction false} SumHalve(row: seq<nat>)
    ensures 2 * Sum(Halve(row)) <= Sum(row)
  {
    if row != [] {
      var n := |row| - 1;
      SumHalve(row[..n]);
      assert Halve(row)[..n] == Halve(row[..n]);
    }
  }

  lemma {:induction false} SumZero(row: seq<nat>)
    requires forall j :: 0 <= j < |row| ==> row[j] == 0
    ensures Sum(row) == 0
  {
    if row != [] {
      SumZero(row[..|row| - 1]);
    }
  }

  lemma {:induction false} CellInSum(row: seq<nat>, j: nat)
    requires j < |row|
    ensures row[j] <= Sum(row)
  {
    if j < |row| - 1 {
      CellInSum(row[..|row| - 1], j);
    }
  }

  lemma BumpSum(l: Layout, t: Table, k: ChunkKey, i: nat)
    requires Sound(l) && Fits(l, t) && i < l.depth
    requires Sum(t.rows[i]) <= t.total
    ensures Sum(Bump(l, t, k).rows[i]) <= Bump(l, t, k).total
  {
    SumBump(t.rows[i], Idx(l, k, i));
  }

  lemma AgeSum(l: Layout, t: Table, i: nat)
    requires Fits(l, t) && i < l.depth
    requires Sum(t.rows[i]) <= t.total
    ensures Sum(Age(l, t).rows[i]) <= Age(l, t).total
  {
    SumHalve(t.rows[i]);
  }

  /** Over unbounded runs each row sums to at most `total`, which stays below 8 * width. */
  lemma {:induction false} RowsBounded(l: Layout, h: seq<ChunkKey>, i: nat)
    requires Sound(l) && i < l.depth
    ensures Sum(Run(l, h).rows[i]) <= Run(l, h).total < 8 * l.width
  {
    TotalAgrees(l, h);
    if h == [] {
      SumZero(Run(l, h).rows[i]);
    } else {
      var before, k := Run(l, h[..|h| - 1]), h[|h| - 1];
      RowsBounded(l, h[..|h| - 1], i);
      BumpSum(l, before, k, i);
      AgeSum(l, Bump(l, before, k), i);
    }
  }

  lemma EstimateBounded(l: Layout, h: seq<ChunkKey>, k: ChunkKey)
    requires Sound(l)
    ensures forall i, j :: 0 <= i < l.depth && 0 <= j < l.width ==> Run(l, h).rows[i][j] < 8 * l.width
    ensures Estimate(l, Run(l, h), k) < 8 * l.width
  {
    forall i, j | 0 <= i < l.depth && 0 <= j < l.width
      ensures Run(l, h).rows[i][j] < 8 * l.width
    {
      RowsBounded(l, h, i);
      CellInSum(Run(l, h).rows[i], j);
    }
    var _ := MinCellIsLeast(l, Run(l, h), k, l.depth);
  }
}
