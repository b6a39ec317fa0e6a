// An OrderedDict whose values are never read is a duplicate-free list of keys,
// oldest first. This module holds the list operations and their laws.
module KeyLists {
  import opened Types

  ghost predicate Distinct(s: seq<ChunkKey>) {
    forall i, j :: 0 <= i < j < |s| ==> s[i] != s[j]
  }

  function Keys(s: seq<ChunkKey>): set<ChunkKey> {
    set k | k in s
  }

  /** `s` with every occurrence of `k` removed, order kept. */
  function Without(s: seq<ChunkKey>, k: ChunkKey): (r: seq<ChunkKey>)
    ensures forall x :: x in r <==> x in s && x != k
    ensures k !in s ==> r == s
    ensures |r| <= |s|
  {
    if s == [] then []
    else if s[0] == k then Without(s[1..], k)
    else [s[0]] + Without(s[1..], k)
  }

  /** `del od[k]`, which fails on a missing key. */
  function Del(s: seq<ChunkKey>, k: ChunkKey): seq<ChunkKey>
    requires k in s
  {
    Without(s, k)
  }

  /** `od[k] = True`: a key that is present keeps its place. */
  function Assign(s: seq<ChunkKey>, k: ChunkKey): seq<ChunkKey> {
    if k in s then s else s + [k]
  }

  /** Remove `k` if present and add it as the newest entry. */
  function Touch(s: seq<ChunkKey>, k: ChunkKey): seq<ChunkKey> {
    Without(s, k) + [k]
  }

  /** The `n` newest entries, or all of them. */
  function Newest(s: seq<ChunkKey>, n: nat): seq<ChunkKey> {
    if |s| <= n then s else s[|s| - n..]
  }

  lemma {:induction false} WithoutConcat(a: seq<ChunkKey>, b: seq<ChunkKey>, k: ChunkKey)
    ensures Without(a + b, k) == Without(a, k) + Without(b, k)
  {
    if a == [] {
      assert a + b == b;
    } else {
      assert (a + b)[0] == a[0] && (a + b)[1..] == a[1..] + b;
      WithoutConcat(a[1..], b, k);
    }
  }

  lemma {:induction false} WithoutDistinct(s: seq<ChunkKey>, k: ChunkKey)
    requires Distinct(s)
    ensures Distinct(Without(s, k))
    ensures |Without(s, k)| == if k in s then |s| - 1 else |s|
  {
    if s != [] {
      assert s[0] !in s[1..];
      WithoutDistinct(s[1..], k);
    }
  }

  /** `s` without its entry at position `i`. */
  function Cut(s: seq<ChunkKey>, i: nat): seq<ChunkKey>
    requires i < |s|
  {
    s[..i] + s[i + 1..]
  }

  /** Removing the entry at position `i` is a cut. */
  lemma {:induction false} WithoutAt(s: seq<ChunkKey>, i: nat)
    requires Distinct(s) && i < |s|
    ensures Without(s, s[i]) == s[..i] + s[i + 1..]
  {
    assert s == s[..i] + ([s[i]] + s[i + 1..]);
    WithoutConcat(s[..i], [s[i]] + s[i + 1..], s[i]);
    WithoutConcat([s[i]], s[i + 1..], s[i]);
  }

  /** Removing a key keeps the order of the others. */
  lemma {:induction false} WithoutOrder(s: seq<ChunkKey>, k: ChunkKey, i: nat, j: nat)
    returns (i': nat, j': nat)
    requires i < j < |Without(s, k)|
    ensures i' < j' < |s|
    ensures s[i'] == Without(s, k)[i] && s[j'] == Without(s, k)[j]
  {
    if s[0] == k {
      i', j' := WithoutOrder(s[1..], k, i, j);
      i', j' := i' + 1, j' + 1;
    } else if i == 0 {
      assert s[1..] != [];
      assert Without(s, k)[j] == Without(s[1..], k)[j - 1];
      assert Without(s, k)[j] in s[1..];
      i' := 0;
      j' :| 0 < j' < |s| && s[j'] == Without(s, k)[j];
    } else {
      i', j' := WithoutOrder(s[1..], k, i - 1, j - 1);
      i', j' := i' + 1, j' + 1;
    }
  }

  lemma KeysSnoc(s: seq<ChunkKey>, k: ChunkKey)
    ensures Keys(s + [k]) == Keys(s) + {k}
  {
  }

  lemma WithoutKeys(s: seq<ChunkKey>, k: ChunkKey)
    ensures Keys(Without(s, k)) == Keys(s) - {k}
  {
  }

  lemma TouchDistinct(s: seq<ChunkKey>, k: ChunkKey)
    requires Distinct(s)
    ensures Distinct(Touch(s, k))
    ensures Keys(Touch(s, k)) == Keys(s) + {k}
    ensures |Touch(s, k)| == if k in s then |s| else |s| + 1
  {
    WithoutDistinct(s, k);
  }

  lemma DistinctSnoc(s: seq<ChunkKey>)
    requires Distinct(s) && s != []
    ensures Distinct(s[..|s| - 1]) && s[|s| - 1] !in s[..|s| - 1]
    ensures forall k :: k in s <==> k in s[..|s| - 1] || k == s[|s| - 1]
  {
    assert s == s[..|s| - 1] + [s[|s| - 1]];
  }

  lemma {:induction false} DistinctSize(s: seq<ChunkKey>)
    requires Distinct(s)
    ensures |Keys(s)| == |s|
  {
    if s != [] {
      DistinctSize(s[1..]);
      assert Keys(s) == {s[0]} + Keys(s[1..]);
    }
  }

  lemma SubsetSize(a: set<ChunkKey>, b: set<ChunkKey>)
    requires a <= b
    ensures |a| <= |b|
    decreases |b|
  {
    if b != {} {
      var x :| x in b;
      SubsetSize(a - {x}, b - {x});
      if x in a {
        assert a == (a - {x}) + {x};
      } else {
        assert a - {x} == a;
      }
    }
  }

  /** The oldest key that is not pinned. */
  function Victim(s: seq<ChunkKey>, pinned: set<ChunkKey>): (v: Option<ChunkKey>)
    ensures v.None? ==> forall x :: x in s ==> x in pinned
    ensures v.Some? ==> v.value in s && v.value !in pinned
  {
    if s == [] then None
    else if s[0] !in pinned then Some(s[0])
    else Victim(s[1..], pinned)
  }

  /** The victim is unpinned and everything older than it is pinned. */
  lemma {:induction false} VictimIsOldest(s: seq<ChunkKey>, pinned: set<ChunkKey>) returns (i: nat)
    requires Victim(s, pinned).Some?
    ensures i < |s| && s[i] == Victim(s, pinned).value && s[i] !in pinned
    ensures forall j :: 0 <= j < i ==> s[j] in pinned
  {
    if s[0] !in pinned {
      i := 0;
    } else {
      i := VictimIsOldest(s[1..], pinned);
      i := i + 1;
    }
  }
}
