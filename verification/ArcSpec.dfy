// ARC as functions on its four lists: `t1` and `t2` hold resident keys, `b1`
// and `b2` the ghosts of keys evicted from them, `p` is the adaptive target
// for |t1|.
module ArcSpec {
  import opened Types
  import opened KeyLists

  datatype Arc = Arc(c: nat, p: int,
                     t1: seq<ChunkKey>, t2: seq<ChunkKey>,
                     b1: seq<ChunkKey>, b2: seq<ChunkKey>)

  /** A put either completes or raises "all frames pinned", leaving `arc` behind. */
  datatype Step = Step(arc: Arc, raised: bool)

  ghost predicate Apart(s: seq<ChunkKey>, t: seq<ChunkKey>) {
    forall x :: x in s ==> x !in t
  }

  ghost predicate Shape(a: Arc) {
    && Distinct(a.t1) && Distinct(a.t2) && Distinct(a.b1) && Distinct(a.b2)
    && Apart(a.t1, a.t2) && Apart(a.t1, a.b1) && Apart(a.t1, a.b2)
    && Apart(a.t2, a.b1) && Apart(a.t2, a.b2) && Apart(a.b1, a.b2)
  }

  ghost predicate Sizes(a: Arc) {
    && 1 <= a.c
    && 0 <= a.p <= a.c
    && |a.t1| + |a.t2| <= a.c
    && |a.t1| + |a.b1| <= a.c
    && |a.t1| + |a.t2| + |a.b1| + |a.b2| <= 2 * a.c
    && (a.b1 != [] || a.b2 != [] ==> |a.t1| + |a.t2| == a.c)
  }

  ghost predicate Inv(a: Arc) {
    Shape(a) && Sizes(a)
  }

  function Empty(c: nat): Arc {
    Arc(c, 0, [], [], [], [])
  }

  predicate Resident(a: Arc, k: ChunkKey) {
    k in a.t1 || k in a.t2
  }

  predicate Tracked(a: Arc, k: ChunkKey) {
    Resident(a, k) || k in a.b1 || k in a.b2
  }

  function Max(x: int, y: int): int {
    if x < y then y else x
  }

  function Get(a: Arc, k: ChunkKey): Arc {
    if k in a.t1 then a.(t1 := Del(a.t1, k), t2 := Assign(a.t2, k))
    else if k in a.t2 then a.(t2 := Touch(a.t2, k))
    else a
  }

  function DemoteT1(a: Arc, v: ChunkKey): Arc
    requires v in a.t1
  {
    a.(t1 := Del(a.t1, v), b1 := Assign(a.b1, v))
  }

  function DemoteT2(a: Arc, v: ChunkKey): Arc
    requires v in a.t2
  {
    a.(t2 := Del(a.t2, v), b2 := Assign(a.b2, v))
  }

  predicate PreferT1(a: Arc, incoming: ChunkKey) {
    a.t1 != [] && (|a.t1| > a.p || (incoming in a.b2 && |a.t1| == a.p))
  }

  /** REPLACE: turn one resident into a ghost, on the side the target asks for
      unless everything there is pinned. */
  function Replace(a: Arc, pinned: set<ChunkKey>, incoming: ChunkKey): Step {
    var v1, v2 := Victim(a.t1, pinned), Victim(a.t2, pinned);
    if PreferT1(a, incoming) then
      if v1.Some? then Step(DemoteT1(a, v1.value), false)
      else if v2.Some? then Step(DemoteT2(a, v2.value), false)
      else Step(a, true)
    else
      if v2.Some? then Step(DemoteT2(a, v2.value), false)
      else if v1.Some? then Step(DemoteT1(a, v1.value), false)
      else Step(a, true)
  }

  function RaiseTarget(a: Arc): Arc {
    a.(p := Min(a.c, a.p + Max(1, |a.b2| / Max(1, |a.b1|))))
  }

  function LowerTarget(a: Arc): Arc {
    a.(p := Max(0, a.p - Max(1, |a.b1| / Max(1, |a.b2|))))
  }

  /** Make room for a brand-new key. `popitem` on an empty ghost list would be
      an index error here. */
  function MakeRoom(a: Arc, pinned: set<ChunkKey>, k: ChunkKey): Step
    requires Inv(a)
  {
    var total := |a.t1| + |a.t2| + |a.b1| + |a.b2|;
    if |a.t1| + |a.b1| == a.c then
      if |a.t1| < a.c then Replace(a.(b1 := a.b1[1..]), pinned, k)
      else
        var v := Victim(a.t1, pinned);
        if v.None? then Step(a, true) else Step(a.(t1 := Del(a.t1, v.value)), false)
    else if total >= a.c then
      Replace(if total == 2 * a.c then a.(b2 := a.b2[1..]) else a, pinned, k)
    else Step(a, false)
  }

  function PutNew(a: Arc, pinned: set<ChunkKey>, k: ChunkKey): Step
    requires Inv(a) && !Tracked(a, k)
  {
    var room := MakeRoom(a, pinned, k);
    if room.raised then room else Step(room.arc.(t1 := Assign(room.arc.t1, k)), false)
  }

  function Put(a: Arc, pinned: set<ChunkKey>, k: ChunkKey): Step
    requires Inv(a)
  {
    if Resident(a, k) then
      Step(a.(t1 := Without(a.t1, k), t2 := Assign(Without(a.t2, k), k)), false)
    else if k in a.b1 then
      var s := Replace(RaiseTarget(a), pinned, k);
      if s.raised then s
      else
        ReplaceKeepsGhosts(RaiseTarget(a), pinned, k);
        Step(s.arc.(b1 := Del(s.arc.b1, k), t2 := Assign(s.arc.t2, k)), false)
    else if k in a.b2 then
      var s := Replace(LowerTarget(a), pinned, k);
      if s.raised then s
      else
        ReplaceKeepsGhosts(LowerTarget(a), pinned, k);
        Step(s.arc.(b2 := Del(s.arc.b2, k), t2 := Assign(s.arc.t2, k)), false)
    else PutNew(a, pinned, k)
  }

  lemma ReplaceKeepsGhosts(a: Arc, pinned: set<ChunkKey>, k: ChunkKey)
    ensures forall x :: x in a.b1 ==> x in Replace(a, pinned, k).arc.b1
    ensures forall x :: x in a.b2 ==> x in Replace(a, pinned, k).arc.b2
  {
  }

  /******* One step *******/

  lemma GetKeepsInv(a: Arc, k: ChunkKey)
    requires Inv(a)
    ensures Inv(Get(a, k))
    ensures |Get(a, k).t1| + |Get(a, k).t2| == |a.t1| + |a.t2|
    ensures Resident(a, k) ==> var t2 := Get(a, k).t2; t2 != [] && t2[|t2| - 1] == k
    ensures forall x :: Resident(Get(a, k), x) <==> Resident(a, x)
  {
    WithoutDistinct(a.t1, k);
    WithoutDistinct(a.t2, k);
  }

  /** A get never touches the target or the ghosts; a miss touches nothing; a hit
      at position `i` moves the key to the young end of t2. */
  lemma GetMoves(a: Arc, k: ChunkKey)
    requires Shape(a)
    ensures Get(a, k).c == a.c && Get(a, k).p == a.p && Get(a, k).b1 == a.b1 && Get(a, k).b2 == a.b2
    ensures k !in a.t1 && k !in a.t2 ==> Get(a, k).t1 == a.t1 && Get(a, k).t2 == a.t2
    ensures forall i :: 0 <= i < |a.t1| && a.t1[i] == k ==>
              Get(a, k).t1 == Cut(a.t1, i) && Get(a, k).t2 == a.t2 + [k]
    ensures forall i :: 0 <= i < |a.t2| && a.t2[i] == k ==>
              Get(a, k).t1 == a.t1 && Get(a, k).t2 == Cut(a.t2, i) + [k]
  {
    forall i | 0 <= i < |a.t1| && a.t1[i] == k
      ensures Get(a, k).t1 == Cut(a.t1, i) && Get(a, k).t2 == a.t2 + [k]
    {
      WithoutAt(a.t1, i);
    }
    forall i | 0 <= i < |a.t2| && a.t2[i] == k
      ensures Get(a, k).t1 == a.t1 && Get(a, k).t2 == Cut(a.t2, i) + [k]
    {
      WithoutAt(a.t2, i);
    }
  }

  /** `r` is `a` with the resident `v` turned into a ghost of its own side. */
  ghost predicate Demoted(a: Arc, v: ChunkKey, r: Arc) {
    && Shape(r) && r.c == a.c && r.p == a.p
    && |r.t1| + |r.t2| == |a.t1| + |a.t2| - 1
    && |r.t1| + |r.b1| == |a.t1| + |a.b1|
    && |r.t2| + |r.b2| == |a.t2| + |a.b2|
    && (forall x :: Resident(r, x) <==> Resident(a, x) && x != v)
    && (forall x :: Tracked(r, x) <==> Tracked(a, x))
    && (forall x :: x in a.b1 ==> x in r.b1)
    && (forall x :: x in a.b2 ==> x in r.b2)
  }

  lemma DemoteT1Moves(a: Arc, v: ChunkKey)
    requires Shape(a) && v in a.t1
    ensures Demoted(a, v, DemoteT1(a, v))
  {
    WithoutDistinct(a.t1, v);
  }

  lemma DemoteT2Moves(a: Arc, v: ChunkKey)
    requires Shape(a) && v in a.t2
    ensures Demoted(a, v, DemoteT2(a, v))
  {
    WithoutDistinct(a.t2, v);
  }

  /** REPLACE moves one unpinned resident to a ghost list, or raises with
      nothing changed because every resident is pinned. */
  lemma ReplaceMoves(a: Arc, pinned: set<ChunkKey>, k: ChunkKey)
    requires Shape(a)
    ensures
      var r := Replace(a, pinned, k);
      && (r.raised <==> forall x :: Resident(a, x) ==> x in pinned)
      && (r.raised ==> r.arc == a)
      && (!r.raised ==> exists v :: v !in pinned && Resident(a, v) && Demoted(a, v, r.arc))
  {
    var v1, v2 := Victim(a.t1, pinned), Victim(a.t2, pinned);
    if v1.Some? {
      DemoteT1Moves(a, v1.value);
      assert Resident(a, v1.value);
    }
    if v2.Some? {
      DemoteT2Moves(a, v2.value);
      assert Resident(a, v2.value);
    }
  }
}
