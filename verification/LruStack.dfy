// The plain LRU list of `_RefLRU` as a function of the request sequence, its
// characterisation by stack distance, and the inclusion theorem.
module LruStack {
  import opened Types
  import opened KeyLists

  /** One request: get, then put on a miss, with room for `c` keys. */
  function LruRequest(s: seq<ChunkKey>, k: ChunkKey, c: nat): seq<ChunkKey> {
    if k in s then Touch(s, k)
    else if |s| + 1 > c then (s + [k])[1..]
    else s + [k]
  }

  function LruFrom(s: seq<ChunkKey>, reqs: seq<ChunkKey>, c: nat): seq<ChunkKey> {
    if reqs == [] then s
    else LruRequest(LruFrom(s, reqs[..|reqs| - 1], c), reqs[|reqs| - 1], c)
  }

  function LruRun(reqs: seq<ChunkKey>, c: nat): seq<ChunkKey> {
    LruFrom([], reqs, c)
  }

  /** Hits of a run that starts with contents `s`. */
  function HitsFrom(s: seq<ChunkKey>, reqs: seq<ChunkKey>, c: nat): nat {
    if reqs == [] then 0
    else
      var before := reqs[..|reqs| - 1];
      HitsFrom(s, before, c) + if reqs[|reqs| - 1] in LruFrom(s, before, c) then 1 else 0
  }

  function Hits(reqs: seq<ChunkKey>, c: nat): nat {
    HitsFrom([], reqs, c)
  }

  /** Every requested key once, in the order of last request. */
  function Recency(reqs: seq<ChunkKey>): seq<ChunkKey> {
    if reqs == [] then [] else Touch(Recency(reqs[..|reqs| - 1]), reqs[|reqs| - 1])
  }

  /** The distinct keys requested after the last request of `k`. */
  function RequestedSince(reqs: seq<ChunkKey>, k: ChunkKey): set<ChunkKey> {
    if reqs == [] || reqs[|reqs| - 1] == k then {}
    else RequestedSince(reqs[..|reqs| - 1], k) + {reqs[|reqs| - 1]}
  }

  lemma {:induction false} RecencyKeys(reqs: seq<ChunkKey>)
    ensures Distinct(Recency(reqs))
    ensures Keys(Recency(reqs)) == Keys(reqs)
  {
    if reqs != [] {
      var n := |reqs| - 1;
      RecencyKeys(reqs[..n]);
      TouchDistinct(Recency(reqs[..n]), reqs[n]);
      assert reqs == reqs[..n] + [reqs[n]];
    }
  }

  /** What follows a key in the recency list is what was requested since. */
  lemma {:induction false} RecencySplit(reqs: seq<ChunkKey>, x: ChunkKey)
    returns (older: seq<ChunkKey>, newer: seq<ChunkKey>)
    requires x in Recency(reqs)
    ensures Recency(reqs) == older + ([x] + newer)
    ensures Keys(newer) == RequestedSince(reqs, x)
  {
    var n := |reqs| - 1;
    var before, k := Recency(reqs[..n]), reqs[n];
    if x == k {
      older, newer := Without(before, k), [];
    } else {
      var a, b := RecencySplit(reqs[..n], x);
      older, newer := Without(a, k), Without(b, k) + [k];
      TouchAround(a, x, b, k);
    }
  }

  lemma TouchAround(a: seq<ChunkKey>, x: ChunkKey, b: seq<ChunkKey>, k: ChunkKey)
    requires x != k
    ensures Touch(a + ([x] + b), k) == Without(a, k) + ([x] + (Without(b, k) + [k]))
  {
    WithoutConcat(a, [x] + b, k);
    WithoutConcat([x], b, k);
    assert Without([x], k) == [x];
  }

  /** The LRU contents are the newest `c` keys of the recency list. */
  lemma {:induction false} LruIsNewest(reqs: seq<ChunkKey>, c: nat)
    ensures LruRun(reqs, c) == Newest(Recency(reqs), c)
  {
    if reqs != [] {
      var n := |reqs| - 1;
      LruIsNewest(reqs[..n], c);
      RecencyKeys(reqs[..n]);
      NewestTouch(Recency(reqs[..n]), reqs[n], c);
    }
  }

  lemma NewestTouch(r: seq<ChunkKey>, k: ChunkKey, c: nat)
    requires Distinct(r)
    ensures LruRequest(Newest(r, c), k, c) == Newest(Touch(r, k), c)
  {
    var kept := Newest(r, c);
    var aged := r[..|r| - |kept|];
    assert r == aged + kept;
    assert k in kept ==> k !in aged;
    WithoutDistinct(kept, k);
    SplitTouch(aged, kept, k, c);
  }

  lemma SplitTouch(aged: seq<ChunkKey>, kept: seq<ChunkKey>, k: ChunkKey, c: nat)
    requires k in kept ==> k !in aged && |Without(kept, k)| == |kept| - 1
    requires |kept| == c || (aged == [] && |kept| < c)
    ensures LruRequest(kept, k, c) == Newest(Touch(aged + kept, k), c)
  {
    WithoutConcat(aged, kept, k);
    var older, s := Without(aged, k), Without(kept, k);
    NewestOfTwo(older, s, k, c);
    assert aged == [] ==> older == [];
  }

  /** The newest `c` of a list that ends in `s` and `k`. */
  lemma NewestOfTwo(older: seq<ChunkKey>, s: seq<ChunkKey>, k: ChunkKey, c: nat)
    ensures |s| + 1 == c || (older == [] && |s| < c) ==> Newest((older + s) + [k], c) == s + [k]
    ensures |s| == c ==> Newest((older + s) + [k], c) == (s + [k])[1..]
  {
  }

  /** Stack distance: a key is held exactly when fewer than `c` distinct keys
      were requested since its last request. */
  lemma StackDistance(reqs: seq<ChunkKey>, c: nat, k: ChunkKey)
    ensures k in LruRun(reqs, c) <==> k in reqs && |RequestedSince(reqs, k)| < c
  {
    LruIsNewest(reqs, c);
    RecencyKeys(reqs);
    assert k in Recency(reqs) <==> k in Keys(reqs);
    if k in reqs {
      var older, newer := RecencySplit(reqs, k);
      DistinctTail(older, k, newer);
      DistinctSize(newer);
      NewestMember(older, k, newer, c);
    }
  }

  lemma DistinctTail(older: seq<ChunkKey>, x: ChunkKey, newer: seq<ChunkKey>)
    requires Distinct(older + ([x] + newer))
    ensures Distinct(newer) && x !in newer && x !in older
  {
    var s := older + ([x] + newer);
    assert s[|older|] == x;
    assert forall i :: 0 <= i < |newer| ==> newer[i] == s[|older| + 1 + i];
    assert forall i :: 0 <= i < |older| ==> older[i] == s[i];
  }

  lemma NewestMember(older: seq<ChunkKey>, x: ChunkKey, newer: seq<ChunkKey>, c: nat)
    requires x !in newer
    ensures x in Newest(older + ([x] + newer), c) <==> |newer| < c
  {
    var s := older + ([x] + newer);
    var newest := Newest(s, c);
    if |newer| < c {
      assert newest[|newest| - |newer| - 1] == x;
    } else {
      assert newest == newer[|newer| - c..];
    }
  }

  /** LRU is a stack algorithm: the smaller cache is always a suffix of the larger. */
  lemma Inclusion(reqs: seq<ChunkKey>, c: nat, c': nat)
    requires c <= c'
    ensures |LruRun(reqs, c)| <= |LruRun(reqs, c')|
    ensures LruRun(reqs, c) == Newest(LruRun(reqs, c'), |LruRun(reqs, c)|)
  {
    LruIsNewest(reqs, c);
    LruIsNewest(reqs, c');
  }

  /** A larger cache never hits less often. */
  lemma {:induction false} HitsMonotone(reqs: seq<ChunkKey>, c: nat, c': nat)
    requires c <= c'
    ensures Hits(reqs, c) <= Hits(reqs, c')
  {
    if reqs != [] {
      var before := reqs[..|reqs| - 1];
      HitsMonotone(before, c, c');
      Inclusion(before, c, c');
    }
  }

  /******* Lists in recency order *******/

  /** Keys later in the list were requested since the earlier ones. */
  ghost predicate ByRecency(s: seq<ChunkKey>, reqs: seq<ChunkKey>) {
    forall i, j :: 0 <= i < j < |s| ==> s[j] in RequestedSince(reqs, s[i])
  }

  lemma SinceGrows(reqs: seq<ChunkKey>, k: ChunkKey, x: ChunkKey)
    requires x != k
    ensures RequestedSince(reqs + [k], x) == RequestedSince(reqs, x) + {k}
  {
    assert (reqs + [k])[..|reqs|] == reqs;
  }

  lemma TouchByRecency(s: seq<ChunkKey>, reqs: seq<ChunkKey>, k: ChunkKey)
    requires ByRecency(s, reqs)
    ensures ByRecency(Touch(s, k), reqs + [k])
  {
    var w := Without(s, k);
    forall i, j | 0 <= i < j < |w| + 1
      ensures Touch(s, k)[j] in RequestedSince(reqs + [k], Touch(s, k)[i])
    {
      assert w[i] in w;
      SinceGrows(reqs, k, w[i]);
      if j < |w| {
        var i', j' := WithoutOrder(s, k, i, j);
      }
    }
  }

  lemma WithoutByRecency(s: seq<ChunkKey>, reqs: seq<ChunkKey>, k: ChunkKey)
    requires ByRecency(s, reqs)
    ensures ByRecency(Without(s, k), reqs + [k])
  {
    TouchByRecency(s, reqs, k);
    var w := Without(s, k);
    assert forall i :: 0 <= i < |w| ==> w[i] == Touch(s, k)[i];
  }

  /******* The benchmark driver: warm up with the first keys, then replay *******/

  /** The distinct keys in the order of their first request. */
  function FirstSeen(reqs: seq<ChunkKey>): seq<ChunkKey> {
    if reqs == [] then [] else Assign(FirstSeen(reqs[..|reqs| - 1]), reqs[|reqs| - 1])
  }

  /** What the warm-up leaves in a cache with room for `c` keys. */
  function WarmContents(reqs: seq<ChunkKey>, c: nat): seq<ChunkKey> {
    var f := FirstSeen(reqs);
    f[..Min(c, |f|)]
  }

  lemma {:induction false} FirstSeenKeys(reqs: seq<ChunkKey>)
    ensures Distinct(FirstSeen(reqs))
    ensures forall k :: k in FirstSeen(reqs) <==> k in reqs
  {
    if reqs != [] {
      FirstSeenKeys(reqs[..|reqs| - 1]);
      assert reqs == reqs[..|reqs| - 1] + [reqs[|reqs| - 1]];
    }
  }

  lemma FirstSeenSize(reqs: seq<ChunkKey>)
    ensures |FirstSeen(reqs)| == |Recency(reqs)|
  {
    FirstSeenKeys(reqs);
    RecencyKeys(reqs);
    DistinctSize(Recency(reqs));
    DistinctSize(FirstSeen(reqs));
    assert Keys(FirstSeen(reqs)) == Keys(reqs);
  }

  lemma {:induction false} FirstSeenPrefix(reqs: seq<ChunkKey>, i: nat)
    requires i <= |reqs|
    ensures FirstSeen(reqs[..i]) <= FirstSeen(reqs)
    decreases |reqs|
  {
    if i < |reqs| {
      var n := |reqs| - 1;
      assert reqs[..n][..i] == reqs[..i];
      FirstSeenPrefix(reqs[..n], i);
    } else {
      assert reqs[..i] == reqs;
    }
  }

  /** After `i` queries the warmed cache holds the warm keys not queried yet,
      followed by what a cold cache would hold; the warm-up has saved one miss
      for every distinct key queried, up to `c`. */
  lemma {:induction false} WarmedRun(reqs: seq<ChunkKey>, i: nat, c: nat)
    requires i <= |reqs|
    ensures
      var w, n := WarmContents(reqs, c), |FirstSeen(reqs[..i])|;
      && LruFrom(w, reqs[..i], c) == w[Min(n, |w|)..] + LruRun(reqs[..i], c)
      && HitsFrom(w, reqs[..i], c) == Hits(reqs[..i], c) + Min(c, n)
  {
    if i > 0 {
      var q := reqs[..i];
      var h, k := reqs[..i - 1], reqs[i - 1];
      assert q[..|q| - 1] == h && q[|q| - 1] == k;
      var w, n := WarmContents(reqs, c), |FirstSeen(h)|;
      WarmedRun(reqs, i - 1, c);
      assert && LruFrom(w, q, c) == LruRequest(LruFrom(w, h, c), k, c)
              && LruRun(q, c) == LruRequest(LruRun(h, c), k, c);
      if n < c {
        WarmedStep(reqs, i, c);
      } else {
        FirstSeenPrefix(reqs, i - 1);
        assert w[Min(n, |w|)..] == [];
        assert LruFrom(w, h, c) == LruRun(h, c);
      }
    }
  }

  /** While fewer than `c` distinct keys were queried, a new key is the next warm one. */
  lemma WarmedStep(reqs: seq<ChunkKey>, i: nat, c: nat)
    requires 0 < i <= |reqs| && |FirstSeen(reqs[..i - 1])| < c
    ensures
      var h, k, w := reqs[..i - 1], reqs[i - 1], WarmContents(reqs, c);
      var n, n' := |FirstSeen(h)|, |FirstSeen(reqs[..i])|;
      && n <= |w| && n' <= |w|
      && n' == (if k in LruRun(h, c) then n else n + 1)
      && k in w[n..] + LruRun(h, c)
      && Touch(w[n..] + LruRun(h, c), k) == w[n'..] + LruRequest(LruRun(h, c), k, c)
  {
    var h, k, w := reqs[..i - 1], reqs[i - 1], WarmContents(reqs, c);
    assert reqs[..i][..i - 1] == h;
    var n, n' := |FirstSeen(h)|, |FirstSeen(reqs[..i])|;
    FirstSeenPrefix(reqs, i - 1);
    FirstSeenPrefix(reqs, i);
    var cold := LruRun(h, c);
    ColdHoldsAll(h, c);
    FirstSeenKeys(reqs);
    assert FirstSeen(reqs)[..n'] == FirstSeen(reqs[..i]);
    OnlyBefore(FirstSeen(reqs), k, n', |w|);
    if k in cold {
      TouchSecond(w[n..], cold, k);
    } else {
      assert w[n..] == [k] + w[n'..];
      TouchHead(w[n'..], cold, k);
    }
  }

  lemma OnlyBefore(s: seq<ChunkKey>, k: ChunkKey, n: nat, m: nat)
    requires Distinct(s) && n <= m <= |s| && k in s[..n]
    ensures k !in s[..m][n..]
  {
    var j :| 0 <= j < n && s[..n][j] == k;
    assert s[j] == k;
  }

  lemma TouchSecond(a: seq<ChunkKey>, b: seq<ChunkKey>, k: ChunkKey)
    requires k !in a
    ensures Touch(a + b, k) == a + Touch(b, k)
  {
    WithoutConcat(a, b, k);
  }

  lemma TouchHead(a: seq<ChunkKey>, b: seq<ChunkKey>, k: ChunkKey)
    requires k !in a && k !in b
    ensures Touch(([k] + a) + b, k) == a + (b + [k])
  {
    assert ([k] + a) + b == [k] + (a + b);
    WithoutConcat([k], a + b, k);
    assert Without([k], k) == [];
    assert (a + b) + [k] == a + (b + [k]);
  }

  /** A cold cache that has not seen `c` distinct keys has lost none. */
  lemma ColdHoldsAll(h: seq<ChunkKey>, c: nat)
    requires |FirstSeen(h)| < c
    ensures |LruRun(h, c)| < c
    ensures forall k :: k in LruRun(h, c) <==> k in FirstSeen(h)
  {
    FirstSeenSize(h);
    FirstSeenKeys(h);
    LruIsNewest(h, c);
    RecencyKeys(h);
    forall k
      ensures k in LruRun(h, c) <==> k in FirstSeen(h)
    {
      assert k in LruRun(h, c) <==> k in Keys(h);
    }
  }

  /** The hits the driver reports: the cold hits plus one per warmed key. */
  lemma DriverHits(reqs: seq<ChunkKey>, c: nat)
    ensures HitsFrom(WarmContents(reqs, c), reqs, c) == Hits(reqs, c) + Min(c, |Recency(reqs)|)
  {
    assert reqs[..|reqs|] == reqs;
    WarmedRun(reqs, |reqs|, c);
    FirstSeenSize(reqs);
  }

  lemma DriverHitsMonotone(reqs: seq<ChunkKey>, c: nat, c': nat)
    requires c <= c'
    ensures HitsFrom(WarmContents(reqs, c), reqs, c) <= HitsFrom(WarmContents(reqs, c'), reqs, c')
  {
    DriverHits(reqs, c);
    DriverHits(reqs, c');
    HitsMonotone(reqs, c, c');
  }
}
