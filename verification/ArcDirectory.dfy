// Without pins, ARC's directory is DBL(2c): two LRU lists that never look at
// the target `p`. Hence it always covers a plain LRU of the same capacity.
module ArcDirectory {
  import opened Types
  import opened KeyLists
  import opened LruStack
  import opened ArcSpec
  import opened ArcSafety

  /** The two LRU lists of DBL(2c), oldest first. */
  datatype Dbl = Dbl(l1: seq<ChunkKey>, l2: seq<ChunkKey>)

  ghost predicate DblSizes(d: Dbl, c: nat) {
    1 <= c && |d.l1| <= c && |d.l1| + |d.l2| <= 2 * c
  }

  function DblRequest(d: Dbl, k: ChunkKey, c: nat): (r: Dbl)
    requires DblSizes(d, c)
  {
    if k in d.l1 || k in d.l2 then Dbl(Without(d.l1, k), Touch(d.l2, k))
    else if |d.l1| == c then Dbl(d.l1[1..] + [k], d.l2)
    else if |d.l1| + |d.l2| == 2 * c then Dbl(d.l1 + [k], d.l2[1..])
    else Dbl(d.l1 + [k], d.l2)
  }

  lemma DblRequestSizes(d: Dbl, k: ChunkKey, c: nat)
    requires DblSizes(d, c) && Distinct(d.l1) && Distinct(d.l2)
    ensures DblSizes(DblRequest(d, k, c), c)
    ensures Distinct(DblRequest(d, k, c).l1) && Distinct(DblRequest(d, k, c).l2)
  {
    WithoutDistinct(d.l1, k);
    WithoutDistinct(d.l2, k);
  }

  ghost function DblRun(reqs: seq<ChunkKey>, c: nat): (d: Dbl)
    requires 1 <= c
    ensures DblSizes(d, c) && Distinct(d.l1) && Distinct(d.l2)
  {
    if reqs == [] then Dbl([], [])
    else
      var before, k := DblRun(reqs[..|reqs| - 1], c), reqs[|reqs| - 1];
      DblRequestSizes(before, k, c);
      DblRequest(before, k, c)
  }

  /** ARC's directory: each ghost list continued by its resident list. */
  function Directory(a: Arc): Dbl {
    Dbl(a.b1 + a.t1, a.b2 + a.t2)
  }

  /** One request: get, then on a miss put on what the get left. */
  ghost function ArcRequest(a: Arc, k: ChunkKey): Arc
    requires Inv(a)
  {
    GetKeepsInv(a, k);
    var g := Get(a, k);
    if Resident(a, k) then g else Put(g, {}, k).arc
  }

  lemma MissPuts(a: Arc, k: ChunkKey)
    requires Inv(a) && !Resident(a, k)
    ensures ArcRequest(a, k) == Put(a, {}, k).arc
  {
    GetMoves(a, k);
  }

  ghost function ArcRun(reqs: seq<ChunkKey>, c: nat): (a: Arc)
    requires 1 <= c
    ensures Inv(a) && a.c == c
  {
    if reqs == [] then Empty(c)
    else
      var before := ArcRun(reqs[..|reqs| - 1], c);
      var k := reqs[|reqs| - 1];
      GetKeepsInv(before, k);
      PutStep(Get(before, k), {}, k);
      ArcRequest(before, k)
  }

  lemma OldestVictim(s: seq<ChunkKey>)
    requires Distinct(s) && s != []
    ensures Victim(s, {}) == Some(s[0]) && Without(s, s[0]) == s[1..]
  {
    WithoutAt(s, 0);
  }

  /** REPLACE never changes the directory. */
  lemma ReplaceKeepsDirectory(a: Arc, k: ChunkKey)
    requires Shape(a) && (a.t1 != [] || a.t2 != [])
    ensures !Replace(a, {}, k).raised
    ensures Directory(Replace(a, {}, k).arc) == Directory(a)
  {
    if a.t1 != [] {
      OldestVictim(a.t1);
      assert (a.b1 + [a.t1[0]]) + a.t1[1..] == a.b1 + a.t1;
    }
    if a.t2 != [] {
      OldestVictim(a.t2);
      assert (a.b2 + [a.t2[0]]) + a.t2[1..] == a.b2 + a.t2;
    }
  }

  lemma HitIsDbl(a: Arc, k: ChunkKey)
    requires Inv(a) && Resident(a, k)
    ensures Directory(Get(a, k)) == DblRequest(Directory(a), k, a.c)
  {
    PromoteInDirectory(a, k);
  }

  /** Moving a tracked key to the young end of t2 is one DBL step. */
  lemma PromoteInDirectory(a: Arc, k: ChunkKey)
    ensures
      var r := a.(b1 := Without(a.b1, k), t1 := Without(a.t1, k), b2 := Without(a.b2, k), t2 := Touch(a.t2, k));
      Directory(r) == Dbl(Without(Directory(a).l1, k), Touch(Directory(a).l2, k))
  {
    SplitWithout(a, k);
  }

  /** Removing a key from the directory removes it from the one list it is in. */
  lemma SplitWithout(a: Arc, k: ChunkKey)
    ensures Without(a.b1 + a.t1, k) == Without(a.b1, k) + Without(a.t1, k)
    ensures Without(a.b2 + a.t2, k) == Without(a.b2, k) + Without(a.t2, k)
  {
    WithoutConcat(a.b1, a.t1, k);
    WithoutConcat(a.b2, a.t2, k);
  }

  lemma GhostIsDbl(a: Arc, k: ChunkKey)
    requires Inv(a) && (k in a.b1 || k in a.b2)
    ensures Directory(Put(a, {}, k).arc) == DblRequest(Directory(a), k, a.c)
  {
    var b := if k in a.b1 then RaiseTarget(a) else LowerTarget(a);
    ReplaceKeepsDirectory(b, k);
    var s := Replace(b, {}, k).arc;
    ReplaceMoves(b, {}, k);
    PromoteInDirectory(s, k);
  }

  /** Making room drops the oldest of L1 when L1 is full, or the oldest of L2
      when only the directory is. */
  ghost predicate DblRoom(d: Dbl, c: nat, r: Dbl)
    requires DblSizes(d, c)
  {
    if |d.l1| == c then r == Dbl(d.l1[1..], d.l2)
    else if |d.l1| + |d.l2| == 2 * c then r == Dbl(d.l1, d.l2[1..])
    else r == d
  }

  lemma RoomAtFullL1(a: Arc, k: ChunkKey)
    requires Inv(a) && |a.t1| + |a.b1| == a.c
    ensures DblRoom(Directory(a), a.c, Directory(MakeRoom(a, {}, k).arc))
  {
    if |a.t1| < a.c {
      DropOldestShape(a);
      ReplaceKeepsDirectory(a.(b1 := a.b1[1..]), k);
      assert a.b1[1..] + a.t1 == (a.b1 + a.t1)[1..];
    } else {
      OldestVictim(a.t1);
      assert a.b1 + a.t1 == a.t1;
      assert a.b1 + a.t1[1..] == a.t1[1..];
    }
  }

  lemma RoomAtFullDirectory(a: Arc, k: ChunkKey)
    requires Inv(a) && |a.t1| + |a.b1| < a.c
    requires |a.t1| + |a.t2| + |a.b1| + |a.b2| == 2 * a.c
    ensures DblRoom(Directory(a), a.c, Directory(MakeRoom(a, {}, k).arc))
  {
    DropOldestShape(a);
    ReplaceKeepsDirectory(a.(b2 := a.b2[1..]), k);
    assert a.b2[1..] + a.t2 == (a.b2 + a.t2)[1..];
  }

  lemma RoomIsDbl(a: Arc, k: ChunkKey)
    requires Inv(a)
    ensures DblRoom(Directory(a), a.c, Directory(MakeRoom(a, {}, k).arc))
  {
    if |a.t1| + |a.b1| == a.c {
      RoomAtFullL1(a, k);
    } else if |a.t1| + |a.t2| + |a.b1| + |a.b2| == 2 * a.c {
      RoomAtFullDirectory(a, k);
    } else if Full(a) {
      ReplaceKeepsDirectory(a, k);
    }
  }

  lemma RoomWithoutPins(a: Arc, k: ChunkKey)
    requires Inv(a)
    ensures !MakeRoom(a, {}, k).raised
    ensures forall x :: Tracked(MakeRoom(a, {}, k).arc, x) ==> Tracked(a, x)
  {
    MakeRoomStep(a, {}, k);
    if Full(a) {
      assert Resident(a, if a.t1 != [] then a.t1[0] else a.t2[0]);
    }
  }

  lemma NewIsDbl(a: Arc, k: ChunkKey)
    requires Inv(a) && !Tracked(a, k)
    ensures Directory(Put(a, {}, k).arc) == DblRequest(Directory(a), k, a.c)
  {
    RoomIsDbl(a, k);
    RoomWithoutPins(a, k);
    var room := MakeRoom(a, {}, k).arc;
    assert !Tracked(room, k);
    assert Put(a, {}, k).arc == room.(t1 := room.t1 + [k]);
    AppendInDirectory(room, k);
    assert k !in Directory(a).l1 && k !in Directory(a).l2;
  }

  lemma AppendInDirectory(a: Arc, k: ChunkKey)
    ensures Directory(a.(t1 := a.t1 + [k])) == Dbl(Directory(a).l1 + [k], Directory(a).l2)
  {
    assert a.b1 + (a.t1 + [k]) == (a.b1 + a.t1) + [k];
  }

  /** In a pin-free run the directory is DBL(2c), whatever the target does. */
  lemma {:induction false} ArcRefinesDbl(reqs: seq<ChunkKey>, c: nat)
    requires 1 <= c
    ensures Directory(ArcRun(reqs, c)) == DblRun(reqs, c)
  {
    if reqs != [] {
      var before := reqs[..|reqs| - 1];
      var a, k := ArcRun(before, c), reqs[|reqs| - 1];
      ArcRefinesDbl(before, c);
      if Resident(a, k) {
        HitIsDbl(a, k);
      } else if k in a.b1 || k in a.b2 {
        MissPuts(a, k);
        GhostIsDbl(a, k);
      } else {
        MissPuts(a, k);
        NewIsDbl(a, k);
      }
    }
  }

  /******* What DBL(2c) never forgets *******/

  /** A requested key is tracked unless `c` distinct keys were requested since. */
  ghost predicate Covers(d: Dbl, reqs: seq<ChunkKey>, c: nat) {
    forall x :: x in reqs && x !in d.l1 && x !in d.l2 ==> |RequestedSince(reqs, x)| >= c
  }

  /** The oldest key of a list with `c` younger ones, or with `c - 1` younger
      ones and a new request, is `c` distinct keys behind. */
  lemma OldestIsBehind(s: seq<ChunkKey>, reqs: seq<ChunkKey>, k: ChunkKey, c: nat)
    requires ByRecency(s, reqs) && Distinct(s) && |s| >= c >= 1 && k !in s
    ensures |RequestedSince(reqs + [k], s[0])| >= c
  {
    var younger := s[1..];
    DistinctSize(younger);
    SinceGrows(reqs, k, s[0]);
    assert Keys(younger) + {k} <= RequestedSince(reqs + [k], s[0]);
    SubsetSize(Keys(younger) + {k}, RequestedSince(reqs + [k], s[0]));
  }

  ghost predicate DblOk(d: Dbl, reqs: seq<ChunkKey>, c: nat) {
    && DblSizes(d, c) && Distinct(d.l1) && Distinct(d.l2)
    && ByRecency(d.l1, reqs) && ByRecency(d.l2, reqs) && Covers(d, reqs, c)
  }

  lemma DblKeepsOrder(d: Dbl, reqs: seq<ChunkKey>, k: ChunkKey, c: nat)
    requires DblSizes(d, c) && ByRecency(d.l1, reqs) && ByRecency(d.l2, reqs)
    ensures ByRecency(DblRequest(d, k, c).l1, reqs + [k])
    ensures ByRecency(DblRequest(d, k, c).l2, reqs + [k])
  {
    TouchByRecency(d.l1, reqs, k);
    TouchByRecency(d.l2, reqs, k);
    WithoutByRecency(d.l1, reqs, k);
    WithoutByRecency(d.l2, reqs, k);
  }

  lemma DblKeepsCover(d: Dbl, reqs: seq<ChunkKey>, k: ChunkKey, c: nat)
    requires DblOk(d, reqs, c)
    ensures Covers(DblRequest(d, k, c), reqs + [k], c)
  {
    var r := DblRequest(d, k, c);
    forall x | x in reqs + [k] && x !in r.l1 && x !in r.l2
      ensures |RequestedSince(reqs + [k], x)| >= c
    {
      assert x != k;
      if x in d.l1 {
        OldestIsBehind(d.l1, reqs, k, c);
      } else if x in d.l2 {
        OldestIsBehind(d.l2, reqs, k, c);
      } else {
        SinceGrows(reqs, k, x);
        SubsetSize(RequestedSince(reqs, x), RequestedSince(reqs + [k], x));
      }
    }
  }

  lemma {:induction false} DblCovers(reqs: seq<ChunkKey>, c: nat)
    requires 1 <= c
    ensures DblOk(DblRun(reqs, c), reqs, c)
  {
    if reqs != [] {
      var before, k := reqs[..|reqs| - 1], reqs[|reqs| - 1];
      assert reqs == before + [k];
      DblCovers(before, c);
      DblKeepsOrder(DblRun(before, c), before, k, c);
      DblKeepsCover(DblRun(before, c), before, k, c);
    }
  }

  /** Any key ARC has forgotten is at least `c` distinct keys behind. */
  lemma ForgottenIsFarBehind(reqs: seq<ChunkKey>, c: nat, x: ChunkKey)
    requires 1 <= c && x in reqs && !Tracked(ArcRun(reqs, c), x)
    ensures |RequestedSince(reqs, x)| >= c
  {
    ArcRefinesDbl(reqs, c);
    DblCovers(reqs, c);
    var a, d := ArcRun(reqs, c), DblRun(reqs, c);
    assert x !in d.l1 && x !in d.l2;
  }

  /** ARC's directory contains everything a plain LRU of the same capacity holds. */
  lemma DirectoryCoversLru(reqs: seq<ChunkKey>, c: nat, x: ChunkKey)
    requires 1 <= c && x in LruRun(reqs, c)
    ensures Tracked(ArcRun(reqs, c), x)
  {
    StackDistance(reqs, c, x);
    if !Tracked(ArcRun(reqs, c), x) {
      ForgottenIsFarBehind(reqs, c, x);
    }
  }
}
