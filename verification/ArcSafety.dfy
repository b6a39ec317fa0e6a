// What every step and every run of ARC keeps, with pins and raising puts.
module ArcSafety {
  import opened Types
  import opened KeyLists
  import opened ArcSpec

  ghost predicate AllPinned(a: Arc, pinned: set<ChunkKey>) {
    forall x :: Resident(a, x) ==> x in pinned
  }

  ghost predicate Full(a: Arc) {
    |a.t1| + |a.t2| == a.c
  }

  lemma DropOldestShape(a: Arc)
    requires Shape(a)
    ensures a.b1 != [] ==> Shape(a.(b1 := a.b1[1..]))
    ensures a.b2 != [] ==> Shape(a.(b2 := a.b2[1..]))
  {
  }

  /** What making room leaves: one free frame, and nothing pinned lost. */
  ghost predicate Room(a: Arc, pinned: set<ChunkKey>, r: Step) {
    && Shape(r.arc) && r.arc.c == a.c && r.arc.p == a.p
    && (r.raised <==> Full(a) && AllPinned(a, pinned))
    && (r.raised ==> r.arc.t1 == a.t1 && r.arc.t2 == a.t2 && Sizes(r.arc))
    && (!r.raised ==>
          && |r.arc.t1| + |r.arc.b1| < a.c
          && |r.arc.t1| + |r.arc.t2| + |r.arc.b1| + |r.arc.b2| < 2 * a.c
          && (if Full(a) then |r.arc.t1| + |r.arc.t2| == a.c - 1
              else r.arc == a && a.b1 == [] && a.b2 == []))
    && (forall x :: Resident(a, x) && x in pinned ==> Resident(r.arc, x))
    && (forall x :: Resident(r.arc, x) ==> Resident(a, x))
    && (forall x :: Tracked(r.arc, x) ==> Tracked(a, x))
  }

  lemma RoomByDroppingB1(a: Arc, pinned: set<ChunkKey>, k: ChunkKey)
    requires Inv(a) && |a.t1| + |a.b1| == a.c && |a.t1| < a.c
    ensures Room(a, pinned, MakeRoom(a, pinned, k))
  {
    DropOldestShape(a);
    ReplaceMoves(a.(b1 := a.b1[1..]), pinned, k);
  }

  lemma RoomByEvictingT1(a: Arc, pinned: set<ChunkKey>, k: ChunkKey)
    requires Inv(a) && |a.t1| == a.c
    ensures Room(a, pinned, MakeRoom(a, pinned, k))
  {
    var v := Victim(a.t1, pinned);
    if v.Some? {
      WithoutDistinct(a.t1, v.value);
    }
  }

  lemma RoomByDroppingB2(a: Arc, pinned: set<ChunkKey>, k: ChunkKey)
    requires Inv(a) && |a.t1| + |a.b1| < a.c
    requires |a.t1| + |a.t2| + |a.b1| + |a.b2| == 2 * a.c
    ensures Room(a, pinned, MakeRoom(a, pinned, k))
  {
    DropOldestShape(a);
    ReplaceMoves(a.(b2 := a.b2[1..]), pinned, k);
  }

  lemma MakeRoomStep(a: Arc, pinned: set<ChunkKey>, k: ChunkKey)
    requires Inv(a)
    ensures Room(a, pinned, MakeRoom(a, pinned, k))
  {
    if |a.t1| + |a.b1| == a.c {
      if |a.t1| < a.c {
        RoomByDroppingB1(a, pinned, k);
      } else {
        RoomByEvictingT1(a, pinned, k);
      }
    } else if |a.t1| + |a.t2| + |a.b1| + |a.b2| == 2 * a.c {
      RoomByDroppingB2(a, pinned, k);
    } else {
      ReplaceMoves(a, pinned, k);
    }
  }

  /** The contract of one put, whatever the pins. */
  ghost predicate PutOk(a: Arc, pinned: set<ChunkKey>, k: ChunkKey, r: Step) {
    && Inv(r.arc) && r.arc.c == a.c
    && (r.raised <==> !Resident(a, k) && Full(a) && AllPinned(a, pinned))
    && (r.raised ==> r.arc.t1 == a.t1 && r.arc.t2 == a.t2)
    && (!r.raised ==>
          if Tracked(a, k) then r.arc.t2 != [] && r.arc.t2[|r.arc.t2| - 1] == k
          else r.arc.t1 != [] && r.arc.t1[|r.arc.t1| - 1] == k)
    && (forall x :: Resident(a, x) && x in pinned ==> Resident(r.arc, x))
    && (forall x :: Resident(r.arc, x) ==> Resident(a, x) || x == k)
    && (Full(a) ==> Full(r.arc))
  }

  lemma PutNewStep(a: Arc, pinned: set<ChunkKey>, k: ChunkKey)
    requires Inv(a) && !Tracked(a, k)
    ensures PutOk(a, pinned, k, PutNew(a, pinned, k))
  {
    MakeRoomStep(a, pinned, k);
  }

  /** A ghost that comes back becomes the youngest key of t2. */
  ghost predicate Promoted(a: Arc, k: ChunkKey, r: Arc) {
    && Shape(r) && r.c == a.c && r.p == a.p
    && |r.t1| == |a.t1| && |r.t2| == |a.t2| + 1
    && |r.b1| <= |a.b1| && |r.b2| <= |a.b2|
    && |r.b1| + |r.b2| == |a.b1| + |a.b2| - 1
    && r.t2[|r.t2| - 1] == k
    && (forall x :: Resident(r, x) <==> Resident(a, x) || x == k)
  }

  lemma PromoteB1(a: Arc, k: ChunkKey)
    requires Shape(a) && k in a.b1
    ensures Promoted(a, k, a.(b1 := Del(a.b1, k), t2 := Assign(a.t2, k)))
  {
    WithoutDistinct(a.b1, k);
  }

  lemma PromoteB2(a: Arc, k: ChunkKey)
    requires Shape(a) && k in a.b2
    ensures Promoted(a, k, a.(b2 := Del(a.b2, k), t2 := Assign(a.t2, k)))
  {
    WithoutDistinct(a.b2, k);
  }

  lemma PutGhost1Step(a: Arc, pinned: set<ChunkKey>, k: ChunkKey)
    requires Inv(a) && k in a.b1
    ensures PutOk(a, pinned, k, Put(a, pinned, k))
  {
    var b := RaiseTarget(a);
    ReplaceMoves(b, pinned, k);
    var s := Replace(b, pinned, k);
    assert forall x :: Resident(b, x) <==> Resident(a, x);
    if !s.raised {
      PromoteB1(s.arc, k);
    }
  }

  lemma PutGhost2Step(a: Arc, pinned: set<ChunkKey>, k: ChunkKey)
    requires Inv(a) && k in a.b2
    ensures PutOk(a, pinned, k, Put(a, pinned, k))
  {
    var b := LowerTarget(a);
    ReplaceMoves(b, pinned, k);
    var s := Replace(b, pinned, k);
    assert forall x :: Resident(b, x) <==> Resident(a, x);
    if !s.raised {
      PromoteB2(s.arc, k);
    }
  }

  /** Putting a resident key is the same as hitting it. */
  lemma PutResidentIsGet(a: Arc, pinned: set<ChunkKey>, k: ChunkKey)
    requires Inv(a) && Resident(a, k)
    ensures Put(a, pinned, k) == Step(Get(a, k), false)
  {
    assert k in a.t1 ==> Without(a.t2, k) == a.t2;
    assert k in a.t2 ==> Without(a.t1, k) == a.t1;
  }

  lemma PutStep(a: Arc, pinned: set<ChunkKey>, k: ChunkKey)
    requires Inv(a)
    ensures PutOk(a, pinned, k, Put(a, pinned, k))
  {
    if Resident(a, k) {
      PutResidentIsGet(a, pinned, k);
      GetKeepsInv(a, k);
    } else if k in a.b1 {
      PutGhost1Step(a, pinned, k);
    } else if k in a.b2 {
      PutGhost2Step(a, pinned, k);
    } else {
      PutNewStep(a, pinned, k);
    }
  }

  /** Position `i` holds the oldest key that is not pinned. */
  ghost predicate OldestUnpinned(list: seq<ChunkKey>, pinned: set<ChunkKey>, i: nat) {
    i < |list| && list[i] !in pinned && forall j :: 0 <= j < i ==> list[j] in pinned
  }

  /** t1 pays if it has an unpinned key and either exceeds the target (or meets
      it on a b2 hit) or t2 cannot pay. */
  ghost predicate T1Pays(a: Arc, pinned: set<ChunkKey>, k: ChunkKey) {
    && (exists x :: x in a.t1 && x !in pinned)
    && (|a.t1| > a.p || (k in a.b2 && |a.t1| == a.p) || forall x :: x in a.t2 ==> x in pinned)
  }

  /** REPLACE turns the oldest unpinned key of the paying side, at position `i`,
      into the youngest ghost of that side. */
  lemma ReplaceTakesOldest(a: Arc, pinned: set<ChunkKey>, k: ChunkKey) returns (t1Pays: bool, i: nat)
    requires Shape(a) && exists x :: Resident(a, x) && x !in pinned
    ensures t1Pays <==> T1Pays(a, pinned, k)
    ensures OldestUnpinned(if t1Pays then a.t1 else a.t2, pinned, i)
    ensures !Replace(a, pinned, k).raised
    ensures Replace(a, pinned, k).arc ==
            if t1Pays then a.(t1 := Cut(a.t1, i), b1 := a.b1 + [a.t1[i]])
            else a.(t2 := Cut(a.t2, i), b2 := a.b2 + [a.t2[i]])
  {
    var v1, v2 := Victim(a.t1, pinned), Victim(a.t2, pinned);
    t1Pays := v1.Some? && (PreferT1(a, k) || v2.None?);
    if t1Pays {
      i := VictimIsOldest(a.t1, pinned);
      WithoutAt(a.t1, i);
    } else {
      i := VictimIsOldest(a.t2, pinned);
      WithoutAt(a.t2, i);
    }
  }

  /** A ghost hit, pins or not. Where it raises, only the target has moved.
      Otherwise the side that pays under the new target turns its oldest unpinned
      key into its youngest ghost, and `k` goes from the ghosts to the young end of t2. */
  lemma GhostHitMoves(a: Arc, pinned: set<ChunkKey>, k: ChunkKey) returns (t1Pays: bool, i: nat)
    requires Inv(a) && (k in a.b1 || k in a.b2)
    ensures
      var (r, b1, b2) := (Put(a, pinned, k), Without(a.b1, k), Without(a.b2, k));
      if AllPinned(a, pinned) then r == Step(a.(p := r.arc.p), true)
      else
        && (t1Pays <==> T1Pays(a.(p := r.arc.p), pinned, k))
        && OldestUnpinned(if t1Pays then a.t1 else a.t2, pinned, i)
        && r == Step(if t1Pays then Arc(a.c, r.arc.p, Cut(a.t1, i), a.t2 + [k], b1 + [a.t1[i]], b2)
                     else Arc(a.c, r.arc.p, a.t1, Cut(a.t2, i) + [k], b1, b2 + [a.t2[i]]), false)
  {
    var b := if k in a.b1 then RaiseTarget(a) else LowerTarget(a);
    ReplaceMoves(b, pinned, k);
    if AllPinned(a, pinned) {
      t1Pays, i := false, 0;
      assert forall x :: Resident(b, x) <==> Resident(a, x);
    } else {
      assert exists x :: Resident(b, x) && x !in pinned by {
        var x :| Resident(a, x) && x !in pinned;
        assert Resident(b, x);
      }
      t1Pays, i := ReplaceTakesOldest(b, pinned, k);
      if t1Pays {
        WithoutConcat(a.b1, [a.t1[i]], k);
        assert a.t1[i] in a.t1;
      } else {
        WithoutConcat(a.b2, [a.t2[i]], k);
        assert a.t2[i] in a.t2;
      }
    }
  }

  /** Which ghosts a brand-new key pushes out: the oldest of b1 when t1 and b1
      are c together, else the oldest of b2 when the directory is full. */
  function ForgetB1(a: Arc): seq<ChunkKey> {
    if |a.t1| + |a.b1| == a.c && a.b1 != [] then a.b1[1..] else a.b1
  }

  function ForgetB2(a: Arc): seq<ChunkKey> {
    if |a.t1| + |a.b1| < a.c && |a.t1| + |a.t2| + |a.b1| + |a.b2| == 2 * a.c && a.b2 != [] then a.b2[1..] else a.b2
  }

  /** A brand-new key, pins or not, goes to the young end of t1. With room nothing
      else changes. At a full cache a ghost may be pushed out, and stays out if the
      put raises; the paying side gives up its oldest unpinned key, as a ghost
      unless t1 alone fills the cache. */
  lemma NewKeyMoves(a: Arc, pinned: set<ChunkKey>, k: ChunkKey) returns (t1Pays: bool, i: nat)
    requires Inv(a) && !Tracked(a, k)
    ensures
      var r := Put(a, pinned, k);
      if !Full(a) then r == Step(a.(t1 := a.t1 + [k]), false)
      else if AllPinned(a, pinned) then r == Step(a.(b1 := ForgetB1(a), b2 := ForgetB2(a)), true)
      else
        && (t1Pays <==> |a.t1| == a.c || T1Pays(a, pinned, k))
        && OldestUnpinned(if t1Pays then a.t1 else a.t2, pinned, i)
        && r == Step(if |a.t1| == a.c then a.(t1 := Cut(a.t1, i) + [k])
                     else if t1Pays then
                       Arc(a.c, a.p, Cut(a.t1, i) + [k], a.t2, ForgetB1(a) + [a.t1[i]], ForgetB2(a))
                     else Arc(a.c, a.p, a.t1 + [k], Cut(a.t2, i), ForgetB1(a), ForgetB2(a) + [a.t2[i]]), false)
  {
    t1Pays, i := false, 0;
    MakeRoomStep(a, pinned, k);
    if !Full(a) {
    } else if |a.t1| == a.c {
      t1Pays := true;
      NewKeyFullT1(a, pinned, k);
      if !AllPinned(a, pinned) {
        i := VictimIsOldest(a.t1, pinned);
        WithoutAt(a.t1, i);
      }
    } else {
      t1Pays, i := NewKeyReplaces(a, pinned, k);
    }
  }

  lemma NewKeyFullT1(a: Arc, pinned: set<ChunkKey>, k: ChunkKey)
    requires Inv(a) && |a.t1| == a.c
    ensures a.t2 == [] && a.b1 == [] && ForgetB1(a) == a.b1 && ForgetB2(a) == a.b2
    ensures AllPinned(a, pinned) <==> Victim(a.t1, pinned).None?
  {
  }

  lemma NewKeyReplaces(a: Arc, pinned: set<ChunkKey>, k: ChunkKey) returns (t1Pays: bool, i: nat)
    requires Inv(a) && !Tracked(a, k) && Full(a) && |a.t1| < a.c
    ensures
      var r := Put(a, pinned, k);
      if AllPinned(a, pinned) then r == Step(a.(b1 := ForgetB1(a), b2 := ForgetB2(a)), true)
      else
        && (t1Pays <==> T1Pays(a, pinned, k))
        && OldestUnpinned(if t1Pays then a.t1 else a.t2, pinned, i)
        && r == Step(if t1Pays then
                       Arc(a.c, a.p, Cut(a.t1, i) + [k], a.t2, ForgetB1(a) + [a.t1[i]], ForgetB2(a))
                     else Arc(a.c, a.p, a.t1 + [k], Cut(a.t2, i), ForgetB1(a), ForgetB2(a) + [a.t2[i]]), false)
  {
    var b := a.(b1 := ForgetB1(a), b2 := ForgetB2(a));
    DropOldestShape(a);
    assert Shape(b);
    assert MakeRoom(a, pinned, k) == Replace(b, pinned, k);
    ReplaceMoves(b, pinned, k);
    assert forall x :: Resident(b, x) <==> Resident(a, x);
    t1Pays, i := false, 0;
    if !AllPinned(a, pinned) {
      assert exists x :: Resident(b, x) && x !in pinned by {
        var x :| Resident(a, x) && x !in pinned;
        assert Resident(b, x);
      }
      t1Pays, i := ReplaceTakesOldest(b, pinned, k);
      assert k !in b.b2;
    }
  }

  /** A brand-new key at a full cache with both sides able to pay leaves the
      target alone, and t1 makes the room exactly when it exceeds it. */
  lemma NewKeyTarget(a: Arc, pinned: set<ChunkKey>, k: ChunkKey)
    requires Inv(a) && !Tracked(a, k) && Full(a) && |a.t1| < a.c
    requires exists x :: x in a.t1 && x !in pinned
    requires exists x :: x in a.t2 && x !in pinned
    ensures
      var r := Put(a, pinned, k);
      !r.raised && r.arc.p == a.p && (|r.arc.t1| == |a.t1| <==> |a.t1| > a.p)
  {
    WithoutDistinct(a.t1, Victim(a.t1, pinned).value);
    MakeRoomStep(a, pinned, k);
  }

  /** Which side pays: with an unpinned key on both sides and a ghost hit, t1
      shrinks exactly when it exceeds the adapted target, or meets it on a b2
      hit. The hit itself has moved the target towards the side it came from. */
  lemma TargetRule(a: Arc, pinned: set<ChunkKey>, k: ChunkKey)
    requires Inv(a) && (k in a.b1 || k in a.b2)
    requires exists x :: x in a.t1 && x !in pinned
    requires exists x :: x in a.t2 && x !in pinned
    ensures
      var r := Put(a, pinned, k).arc;
      && !Put(a, pinned, k).raised
      && (k in a.b1 ==> (a.p < r.p || r.p == a.p == a.c) && (|r.t1| < |a.t1| <==> |a.t1| > r.p))
      && (k in a.b2 ==> (r.p < a.p || r.p == a.p == 0) && (|r.t1| < |a.t1| <==> |a.t1| >= r.p))
  {
    var v1, v2 := Victim(a.t1, pinned), Victim(a.t2, pinned);
    WithoutDistinct(a.t1, v1.value);
    if k in a.b1 {
      assert k !in a.b2;
    }
  }

  /** By how much: `d` is the length ratio of the other ghost list to this one,
      rounded down and at least 1, and the target is clamped to 0..c. */
  lemma TargetAmount(a: Arc, pinned: set<ChunkKey>, k: ChunkKey) returns (d: nat)
    requires Inv(a) && (k in a.b1 || k in a.b2)
    ensures
      var r := Put(a, pinned, k).arc;
      var (here, there) := if k in a.b1 then (|a.b1|, |a.b2|) else (|a.b2|, |a.b1|);
      && d >= 1
      && (d * here <= there < (d + 1) * here || (d == 1 && there < here))
      && (k in a.b1 ==> r.p == if a.p + d <= a.c then a.p + d else a.c)
      && (k in a.b2 ==> r.p == if a.p >= d then a.p - d else 0)
  {
    if k in a.b1 {
      d := Ratio(|a.b1|, |a.b2|);
      ReplaceMoves(RaiseTarget(a), pinned, k);
    } else {
      d := Ratio(|a.b2|, |a.b1|);
      ReplaceMoves(LowerTarget(a), pinned, k);
    }
  }

  lemma Ratio(here: nat, there: nat) returns (d: nat)
    requires here >= 1
    ensures d == Max(1, there / Max(1, here)) >= 1
    ensures d * here <= there < (d + 1) * here || (d == 1 && there < here)
  {
    d := Max(1, there / here);
    assert there == (there / here) * here + there % here;
    if there / here == 0 {
      assert there < here;
    } else {
      assert (d + 1) * here == d * here + here;
    }
  }

  /******* Runs *******/

  datatype Cache = Cache(arc: Arc, pinned: set<ChunkKey>)

  /** A raising put keeps whatever it changed before raising. */
  function Exec(s: Cache, op: Op): Cache
    requires Inv(s.arc)
  {
    match op
    case DoGet(k, _) => s.(arc := Get(s.arc, k))
    case DoPut(k, _) => s.(arc := Put(s.arc, s.pinned, k).arc)
    case DoPin(k) => s.(pinned := s.pinned + {k})
    case DoUnpin(k) => s.(pinned := s.pinned - {k})
  }

  lemma ExecKeeps(s: Cache, op: Op)
    requires Inv(s.arc)
    ensures Inv(Exec(s, op).arc) && Exec(s, op).arc.c == s.arc.c
    ensures Full(s.arc) ==> Full(Exec(s, op).arc)
    ensures forall x :: Resident(s.arc, x) && x in s.pinned ==> Resident(Exec(s, op).arc, x)
  {
    if op.DoGet? {
      GetKeepsInv(s.arc, op.k);
    } else if op.DoPut? {
      PutStep(s.arc, s.pinned, op.k);
    }
  }

  /** Any interleaving of gets, puts, pins and unpins, raising or not, keeps
      the invariant; a full cache stays full. */
  ghost function Run(s: Cache, ops: seq<Op>): (r: Cache)
    requires Inv(s.arc)
    ensures Inv(r.arc) && r.arc.c == s.arc.c
    ensures Full(s.arc) ==> Full(r.arc)
    decreases |ops|
  {
    if ops == [] then s
    else
      ExecKeeps(s, ops[0]);
      Run(Exec(s, ops[0]), ops[1..])
  }

  lemma {:induction false} RunSnoc(s: Cache, ops: seq<Op>, op: Op)
    requires Inv(s.arc)
    ensures Run(s, ops + [op]) == Exec(Run(s, ops), op)
    decreases |ops|
  {
    if ops == [] {
      assert [] + [op] == [op] && [op][1..] == [];
      ExecKeeps(s, op);
    } else {
      ExecKeeps(s, ops[0]);
      assert (ops + [op])[0] == ops[0] && (ops + [op])[1..] == ops[1..] + [op];
      RunSnoc(Exec(s, ops[0]), ops[1..], op);
    }
  }

  /** A pinned resident stays until it is unpinned. */
  lemma {:induction false} PinnedStays(s: Cache, ops: seq<Op>, x: ChunkKey)
    requires Inv(s.arc) && Resident(s.arc, x) && x in s.pinned
    requires DoUnpin(x) !in ops
    ensures Resident(Run(s, ops).arc, x) && x in Run(s, ops).pinned
    decreases |ops|
  {
    if ops != [] {
      ExecKeeps(s, ops[0]);
      PinnedStays(Exec(s, ops[0]), ops[1..], x);
    }
  }
}
