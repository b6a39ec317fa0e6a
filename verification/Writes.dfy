// The two write paths of benchmarks/bench_writes.py on the encrypted store:
// S2 mutates a record inside its chunk, S3 moves one to another chunk.
module Writes {
  import opened Types
  import opened KeyLists
  import opened Segmentation
  import opened StoreSpec
  import opened SecureStore

  type Blobs = map<ChunkKey, Bytes>
  type Plain = map<ChunkKey, seq<Record>>

  /** The random choices of one write are parameters. */
  datatype Write =
    | InChunk(k: ChunkKey, duration: Value, nonce: nat)
    | Move(a: ChunkKey, b: ChunkKey, nonceA: nat, nonceB: nat)

  function WithDuration(r: Record, duration: Value): Record {
    r["duration" := duration]
  }

  /** Set the first record's duration field, if there is a record. */
  function Mutated(rs: seq<Record>, duration: Value): seq<Record> {
    if rs == [] then [] else [WithDuration(rs[0], duration)] + rs[1..]
  }

  predicate Targets(w: Write, stored: set<ChunkKey>) {
    match w
    case InChunk(k, _, _) => k in stored
    case Move(a, b, _, _) => a in stored && b in stored && a != b
  }

  /** Decrypt, change, re-encrypt; None where a decrypt raises InvalidTag. */
  function Apply(c: Cipher, blobs: Blobs, w: Write): Option<Blobs>
    requires Targets(w, blobs.Keys)
  {
    match w
    case InChunk(k, duration, nonce) =>
      (match Open(c, blobs[k])
       case InvalidTag => None
       case Records(rs) => Some(blobs[k := Seal(c, nonce, Mutated(rs, duration))]))
    case Move(a, b, nonceA, nonceB) =>
      match (Open(c, blobs[a]), Open(c, blobs[b]))
      case (Records(ra), Records(rb)) =>
        var (ra', rb') := if ra == [] then (ra, rb) else (ra[1..], rb + [ra[0]]);
        Some(blobs[a := Seal(c, nonceA, ra')][b := Seal(c, nonceB, rb')])
      case _ => None
  }

  /** The keys it decrypts on the way: never none, and up to the one that fails. */
  function Opens(c: Cipher, blobs: Blobs, w: Write): (ks: seq<ChunkKey>)
    requires Targets(w, blobs.Keys)
  {
    match w
    case InChunk(k, _, _) => [k]
    case Move(a, b, _, _) => if Open(c, blobs[a]).InvalidTag? then [a] else [a, b]
  }

  /** A write goes past access control and audit. */
  function WriteStep(c: Cipher, s: Store, w: Write): (r: Store)
    requires Targets(w, s.blobs.Keys)
    ensures r.blobs.Keys == s.blobs.Keys
  {
    var blobs := Apply(c, s.blobs, w);
    s.(blobs := if blobs.Some? then blobs.value else s.blobs,
       decrypts := s.decrypts + Opens(c, s.blobs, w))
  }

  /******* The plain effect *******/

  function ApplyPlain(p: Plain, w: Write): Plain
    requires Targets(w, p.Keys)
  {
    match w
    case InChunk(k, duration, _) => p[k := Mutated(p[k], duration)]
    case Move(a, b, _, _) =>
      if p[a] == [] then p else p[a := p[a][1..]][b := p[b] + [p[a][0]]]
  }

  function ApplyAll(p: Plain, ws: seq<Write>): (r: Plain)
    requires forall w :: w in ws ==> Targets(w, p.Keys)
    ensures r.Keys == p.Keys
  {
    if ws == [] then p
    else
      var before := ApplyAll(p, ws[..|ws| - 1]);
      assert ws[|ws| - 1] in ws;
      ApplyPlain(before, ws[|ws| - 1])
  }

  /** `p` is what the blobs decrypt to. */
  ghost predicate Shows(c: Cipher, blobs: Blobs, p: Plain) {
    blobs.Keys == p.Keys && forall k :: k in blobs ==> Open(c, blobs[k]) == Records(p[k])
  }

  /** On readable blobs no write raises, and the decrypted contents follow the
      plain effect. */
  lemma ApplyShows(c: Cipher, blobs: Blobs, p: Plain, w: Write)
    requires RoundTrips(c) && Shows(c, blobs, p) && Targets(w, p.Keys)
    ensures Apply(c, blobs, w).Some? && Shows(c, Apply(c, blobs, w).value, ApplyPlain(p, w))
  {
    match w {
      case InChunk(k, duration, nonce) =>
        OpenSealed(c, nonce, Mutated(p[k], duration));
      case Move(a, b, nonceA, nonceB) =>
        var (ra, rb) := if p[a] == [] then (p[a], p[b]) else (p[a][1..], p[b] + [p[a][0]]);
        OpenSealed(c, nonceA, ra);
        OpenSealed(c, nonceB, rb);
    }
  }

  /** A write raises exactly where a blob it reads does not decrypt, the second
      one of a move being read only if the first does. */
  lemma ApplyRaisesIff(c: Cipher, blobs: Blobs, w: Write)
    requires Targets(w, blobs.Keys)
    ensures w.InChunk? ==>
              (Apply(c, blobs, w).None? <==> c.decrypt(blobs[w.k]).None?) && Opens(c, blobs, w) == [w.k]
    ensures w.Move? ==>
              && (Apply(c, blobs, w).None? <==> c.decrypt(blobs[w.a]).None? || c.decrypt(blobs[w.b]).None?)
              && Opens(c, blobs, w) == if c.decrypt(blobs[w.a]).None? then [w.a] else [w.a, w.b]
  {
  }

  /** A write that raises leaves the blobs; no write touches policy or audit log. */
  lemma RaiseLeavesBlobs(c: Cipher, s: Store, w: Write)
    requires Targets(w, s.blobs.Keys)
    ensures
      var r := WriteStep(c, s, w);
      && r.policy == s.policy && r.entries == s.entries
      && (c.decrypt(s.blobs[if w.InChunk? then w.k else w.a]).None? ==> r.blobs == s.blobs)
      && (w.Move? && c.decrypt(s.blobs[w.b]).None? ==> r.blobs == s.blobs)
  {
    ApplyRaisesIff(c, s.blobs, w);
  }

  /** What it touches is encrypted anew under the nonces drawn, the rest stays. */
  lemma ApplyEncrypts(c: Cipher, blobs: Blobs, w: Write)
    requires Targets(w, blobs.Keys) && Apply(c, blobs, w).Some?
    ensures
      var r := Apply(c, blobs, w).value;
      && r.Keys == blobs.Keys
      && (w.InChunk? ==> exists rs :: r[w.k] == c.encrypt(w.nonce, c.serialize(rs)))
      && (w.Move? ==> exists rs :: r[w.a] == c.encrypt(w.nonceA, c.serialize(rs)))
      && (w.Move? ==> exists rs :: r[w.b] == c.encrypt(w.nonceB, c.serialize(rs)))
      && forall k :: k in blobs && k !in KeysOf(w) ==> r[k] == blobs[k]
  {
    assert forall n, rs :: Seal(c, n, rs) == c.encrypt(n, c.serialize(rs));
  }

  /** An update sets the duration of the chunk's first record and nothing else. */
  lemma UpdateSetsDuration(p: Plain, w: Write)
    requires w.InChunk? && Targets(w, p.Keys)
    ensures
      var q := ApplyPlain(p, w);
      && q.Keys == p.Keys && (forall k :: k in p && k != w.k ==> q[k] == p[k])
      && |q[w.k]| == |p[w.k]| && (forall i :: 0 < i < |p[w.k]| ==> q[w.k][i] == p[w.k][i])
      && (p[w.k] != [] ==>
            var before, after := p[w.k][0], q[w.k][0];
            && after.Keys == before.Keys + {"duration"} && after["duration"] == w.duration
            && forall field :: field in before && field != "duration" ==> after[field] == before[field])
  {
  }

  /** A move takes the first record of one chunk to the end of the other. */
  lemma MoveShifts(p: Plain, w: Write)
    requires w.Move? && Targets(w, p.Keys)
    ensures
      var q := ApplyPlain(p, w);
      && q.Keys == p.Keys && (forall k :: k in p && k != w.a && k != w.b ==> q[k] == p[k])
      && if p[w.a] == [] then q[w.a] == [] && q[w.b] == p[w.b]
         else p[w.a] == [p[w.a][0]] + q[w.a] && q[w.b] == p[w.b] + [p[w.a][0]]
  {
  }

  /******* S2: in-chunk updates *******/

  /** The key does not depend on the field that S2 sets. */
  ghost predicate IgnoresDuration(raw: RawExtractor) {
    forall r, v :: raw(WithDuration(r, v)) == raw(r)
  }

  /** All three extractors of core/segmenter.py are such. */
  lemma ExtractorsIgnoreDuration(toInt: ToInt)
    ensures IgnoresDuration(Kdd(toInt)) && IgnoresDuration(Taxi(toInt)) && IgnoresDuration(Weblog(toInt))
  {
    forall r, v
      ensures KddKey(toInt, WithDuration(r, v)) == KddKey(toInt, r)
      ensures TaxiKey(toInt, WithDuration(r, v)) == TaxiKey(toInt, r)
      ensures WeblogKey(toInt, WithDuration(r, v)) == WeblogKey(toInt, r)
    {
      DurationIsNoKey(toInt, r, v);
    }
  }

  lemma DurationIsNoKey(toInt: ToInt, r: Record, v: Value)
    ensures KddKey(toInt, WithDuration(r, v)) == KddKey(toInt, r)
    ensures TaxiKey(toInt, WithDuration(r, v)) == TaxiKey(toInt, r)
    ensures WeblogKey(toInt, WithDuration(r, v)) == WeblogKey(toInt, r)
  {
  }

  /** The two lists have the same length and, record by record, the same key. */
  ghost predicate SameKeys(s: seq<Record>, t: seq<Record>, raw: RawExtractor) {
    |s| == |t| && forall i :: 0 <= i < |s| ==> raw(s[i]) == raw(t[i])
  }

  lemma UpdateKeepsKeys(rs: seq<Record>, v: Value, raw: RawExtractor)
    requires IgnoresDuration(raw)
    ensures SameKeys(rs, Mutated(rs, v), raw)
  {
    if rs != [] {
      assert Mutated(rs, v)[0] == WithDuration(rs[0], v);
    }
  }

  /** Any number of in-chunk updates keeps every chunk's record count and every
      record's extracted key. */
  lemma {:induction false} UpdatesKeepKeys(p: Plain, ws: seq<Write>, raw: RawExtractor, k: ChunkKey)
    requires IgnoresDuration(raw)
    requires forall w :: w in ws ==> w.InChunk? && Targets(w, p.Keys)
    requires k in p
    ensures SameKeys(p[k], ApplyAll(p, ws)[k], raw)
  {
    if ws != [] {
      var n := |ws| - 1;
      var before, w := ApplyAll(p, ws[..n]), ws[n];
      UpdatesKeepKeys(p, ws[..n], raw, k);
      assert w in ws;
      UpdateKeepsKeys(before[w.k], w.duration, raw);
    }
  }

  /** So records stay in the chunk of their key and the index stays right. */
  lemma UpdatesKeepPlacement(p: Plain, ws: seq<Write>, raw: RawExtractor)
    requires IgnoresDuration(raw)
    requires forall w :: w in ws ==> w.InChunk? && Targets(w, p.Keys)
    requires WellPlaced(p, KeyBy(raw))
    ensures WellPlaced(ApplyAll(p, ws), KeyBy(raw))
  {
    var q := ApplyAll(p, ws);
    forall k, r | k in q && r in q[k]
      ensures KeyBy(raw)(r) == k
    {
      UpdatesKeepKeys(p, ws, raw, k);
      var i :| 0 <= i < |q[k]| && q[k][i] == r;
      assert p[k][i] in p[k];
    }
  }

  /******* S3: cross-chunk moves *******/

  /** All stored records, chunk by chunk. */
  ghost function Everything(p: Plain, order: seq<ChunkKey>): multiset<Record>
    requires forall k :: k in order ==> k in p
  {
    if order == [] then multiset{}
    else Everything(p, order[..|order| - 1]) + multiset(p[order[|order| - 1]])
  }

  lemma {:induction false} ReplaceChunk(p: Plain, order: seq<ChunkKey>, k: ChunkKey, rs: seq<Record>)
    requires Distinct(order) && k in p && forall x :: x in order ==> x in p
    ensures k !in order ==> Everything(p[k := rs], order) == Everything(p, order)
    ensures k in order ==>
              Everything(p[k := rs], order) + multiset(p[k]) == Everything(p, order) + multiset(rs)
  {
    if order != [] {
      var init, last := order[..|order| - 1], order[|order| - 1];
      DistinctSnoc(order);
      ReplaceChunk(p, init, k, rs);
      if k != last && k in init {
        Regroup(Everything(p[k := rs], init), multiset(p[k]), Everything(p, init), multiset(rs), multiset(p[last]));
      }
    }
  }

  lemma Regroup(a: multiset<Record>, b: multiset<Record>, c: multiset<Record>, d: multiset<Record>, m: multiset<Record>)
    requires a + b == c + d
    ensures (a + m) + b == (c + m) + d
  {
    assert (a + m) + b == (a + b) + m;
  }

  lemma MoveConserves(p: Plain, order: seq<ChunkKey>, w: Write)
    requires Distinct(order) && Keys(order) == p.Keys && w.Move? && Targets(w, p.Keys)
    ensures forall k :: k in order ==> k in p
    ensures Everything(ApplyPlain(p, w), order) == Everything(p, order)
  {
    assert forall k :: k in order <==> k in Keys(order);
    if p[w.a] != [] {
      var moved, rest := p[w.a][0], p[w.a][1..];
      var q := p[w.a := rest];
      ReplaceChunk(p, order, w.a, rest);
      ReplaceChunk(q, order, w.b, p[w.b] + [moved]);
      assert p[w.a] == [moved] + rest;
      HandOver(Everything(p, order), Everything(q, order), Everything(ApplyPlain(p, w), order),
               multiset(rest), multiset(p[w.b]), multiset{moved});
    }
  }

  /** Taking `m` out of one part and putting it into another changes no total. */
  lemma HandOver(before: multiset<Record>, between: multiset<Record>, after: multiset<Record>,
                 a: multiset<Record>, b: multiset<Record>, m: multiset<Record>)
    requires between + (m + a) == before + a
    requires after + b == between + (b + m)
    ensures after == before
  {
    forall x
      ensures after[x] == before[x]
    {
      assert (between + (m + a))[x] == (before + a)[x];
      assert (after + b)[x] == (between + (b + m))[x];
    }
  }

  /** Any number of moves conserves the multiset of all stored records. */
  lemma {:induction false} MovesConserve(p: Plain, order: seq<ChunkKey>, ws: seq<Write>)
    requires Distinct(order) && Keys(order) == p.Keys
    requires forall w :: w in ws ==> w.Move? && Targets(w, p.Keys)
    ensures forall k :: k in order ==> k in p
    ensures Everything(ApplyAll(p, ws), order) == Everything(p, order)
  {
    assert forall k :: k in order ==> k in Keys(order);
    if ws != [] {
      var n := |ws| - 1;
      MovesConserve(p, order, ws[..n]);
      assert ws[n] in ws;
      MoveConserves(ApplyAll(p, ws[..n]), order, ws[n]);
    }
  }

  /** Every record is in the chunk of its key. */
  ghost predicate WellPlaced(p: Plain, ext: Extractor) {
    forall k :: k in p ==> forall r :: r in p[k] ==> ext(r) == k
  }

  /** A move keeps records in the chunk of their key exactly when it moves nothing. */
  lemma MoveMisplaces(p: Plain, w: Write, ext: Extractor)
    requires WellPlaced(p, ext) && w.Move? && Targets(w, p.Keys)
    ensures WellPlaced(ApplyPlain(p, w), ext) <==> p[w.a] == []
  {
    if p[w.a] != [] {
      var moved := p[w.a][0];
      var q := ApplyPlain(p, w);
      assert moved in p[w.a];
      assert moved in q[w.b];
    }
  }

  /** A move out of an empty chunk. */
  predicate Idle(p: Plain, w: Write) {
    w.Move? && Targets(w, p.Keys) && p[w.a] == []
  }

  /** Over a run of moves, records are in the chunk of their key after every
      move exactly when every move takes from a chunk that is empty at the start. */
  lemma MovesMisplace(p: Plain, ws: seq<Write>, ext: Extractor)
    requires WellPlaced(p, ext)
    requires forall w :: w in ws ==> w.Move? && Targets(w, p.Keys)
    ensures (forall i :: 0 <= i <= |ws| ==> WellPlaced(ApplyAll(p, ws[..i]), ext)) <==>
            forall w :: w in ws ==> Idle(p, w)
  {
    if forall w :: w in ws ==> Idle(p, w) {
      forall i | 0 <= i <= |ws|
        ensures WellPlaced(ApplyAll(p, ws[..i]), ext)
      {
        IdleMoves(p, ws[..i]);
      }
    } else {
      var i := FirstBusy(p, ws);
      assert ws[..i + 1][..i] == ws[..i];
      assert ws[i] in ws;
      IdleMoves(p, ws[..i]);
      MoveMisplaces(p, ws[i], ext);
      assert !WellPlaced(ApplyAll(p, ws[..i + 1]), ext);
    }
  }

  lemma {:induction false} FirstBusy(p: Plain, ws: seq<Write>) returns (i: nat)
    requires exists w :: w in ws && !Idle(p, w)
    ensures i < |ws| && !Idle(p, ws[i])
    ensures forall j :: 0 <= j < i ==> Idle(p, ws[j])
  {
    if !Idle(p, ws[0]) {
      i := 0;
    } else {
      var w :| w in ws && !Idle(p, w);
      assert w in ws[1..];
      i := FirstBusy(p, ws[1..]);
      i := i + 1;
    }
  }

  lemma {:induction false} IdleMoves(p: Plain, ws: seq<Write>)
    requires forall w :: w in ws ==> Idle(p, w)
    ensures forall w :: w in ws ==> Targets(w, p.Keys)
    ensures ApplyAll(p, ws) == p
  {
    if ws != [] {
      IdleMoves(p, ws[..|ws| - 1]);
      assert ws[|ws| - 1] in ws;
    }
  }

  /** All stored records in one list, chunk by chunk. */
  function Contents(p: Plain, order: seq<ChunkKey>): seq<Record>
    requires forall k :: k in order ==> k in p
  {
    if order == [] then [] else Contents(p, order[..|order| - 1]) + p[order[|order| - 1]]
  }

  /** Each chunk is what a linear scan of the stored records finds for its key
      exactly when records are in the chunk of their key. */
  lemma PlacementIsScan(p: Plain, order: seq<ChunkKey>, ext: Extractor)
    requires Distinct(order) && Keys(order) == p.Keys
    ensures forall k :: k in order ==> k in p
    ensures (forall k :: k in p ==> Matching(Contents(p, order), ext, k) == p[k]) <==> WellPlaced(p, ext)
  {
    assert forall k :: k in order <==> k in Keys(order);
    if WellPlaced(p, ext) {
      forall k | k in p
        ensures Matching(Contents(p, order), ext, k) == p[k]
      {
        ScanFinds(p, order, ext, k);
      }
    } else {
      var k, r :| k in p && r in p[k] && ext(r) != k;
      MatchingHasKey(Contents(p, order), ext, k);
      assert Matching(Contents(p, order), ext, k) != p[k];
    }
  }

  lemma {:induction false} ScanFinds(p: Plain, order: seq<ChunkKey>, ext: Extractor, k: ChunkKey)
    requires Distinct(order) && WellPlaced(p, ext) && forall x :: x in order ==> x in p
    ensures Matching(Contents(p, order), ext, k) == if k in order then p[k] else []
  {
    if order != [] {
      var init, last := order[..|order| - 1], order[|order| - 1];
      DistinctSnoc(order);
      ScanFinds(p, init, ext, k);
      MatchingBlock(p[last], ext, last, k);
      MatchingAppend(Contents(p, init), p[last], ext, k);
    }
  }

  /******* The loops *******/

  /** One write on the store; false where InvalidTag is raised. */
  method WriteOnce(store: SecureChunkStore, w: Write) returns (ok: bool)
    requires Targets(w, store.blobs.Keys)
    modifies store`blobs, store`decrypts
    ensures ok <==> Apply(store.cipher, old(store.blobs), w).Some?
    ensures store.State() == WriteStep(store.cipher, old(store.State()), w)
  {
    match w {
      case InChunk(k, duration, nonce) =>
        store.decrypts := store.decrypts + [k];
        var pt := store.cipher.decrypt(store.blobs[k]);
        if pt.None? {
          return false;
        }
        var recList := store.cipher.deserialize(pt.value);
        if recList != [] {
          recList := recList[0 := recList[0]["duration" := duration]];
        }
        assert recList == Mutated(store.cipher.deserialize(pt.value), duration);
        store.blobs := store.blobs[k := store.cipher.encrypt(nonce, store.cipher.serialize(recList))];
      case Move(a, b, nonceA, nonceB) =>
        store.decrypts := store.decrypts + [a];
        var ptA := store.cipher.decrypt(store.blobs[a]);
        if ptA.None? {
          return false;
        }
        store.decrypts := store.decrypts + [b];
        assert store.decrypts == old(store.decrypts) + [a, b];
        var ptB := store.cipher.decrypt(store.blobs[b]);
        if ptB.None? {
          return false;
        }
        var recsA, recsB := store.cipher.deserialize(ptA.value), store.cipher.deserialize(ptB.value);
        if recsA != [] {
          var moved := recsA[0];
          recsA := recsA[1..];
          recsB := recsB + [moved];
        }
        var blobA := store.cipher.encrypt(nonceA, store.cipher.serialize(recsA));
        var blobB := store.cipher.encrypt(nonceB, store.cipher.serialize(recsB));
        store.blobs := store.blobs[a := blobA];
        store.blobs := store.blobs[b := blobB];
    }
    return true;
  }

  /** The chunks that writes on a readable store decrypt, in order. */
  function Touched(ws: seq<Write>): (ks: seq<ChunkKey>)
    ensures |ws| <= |ks|
  {
    if ws == [] then [] else Touched(ws[..|ws| - 1]) + KeysOf(ws[|ws| - 1])
  }

  function KeysOf(w: Write): seq<ChunkKey> {
    if w.InChunk? then [w.k] else [w.a, w.b]
  }

  ghost predicate AllTarget(ws: seq<Write>, stored: set<ChunkKey>) {
    forall w :: w in ws ==> Targets(w, stored)
  }

  /** Since `before`, the store has come to show `p`, the chunks `read` were
      decrypted, and the audit log has no trace of it. */
  ghost predicate Follows(c: Cipher, before: Store, s: Store, p: Plain, read: seq<ChunkKey>) {
    && Shows(c, s.blobs, p)
    && s.decrypts == before.decrypts + read
    && s.entries == before.entries && s.policy == before.policy
  }

  lemma StepShows(c: Cipher, s: Store, p: Plain, w: Write)
    requires RoundTrips(c) && Shows(c, s.blobs, p) && Targets(w, p.Keys)
    ensures Apply(c, s.blobs, w).Some?
    ensures Shows(c, WriteStep(c, s, w).blobs, ApplyPlain(p, w))
    ensures WriteStep(c, s, w).decrypts == s.decrypts + KeysOf(w)
    ensures WriteStep(c, s, w).entries == s.entries && WriteStep(c, s, w).policy == s.policy
  {
    ApplyShows(c, s.blobs, p, w);
  }

  lemma AppliedSnoc(p: Plain, ws: seq<Write>, w: Write)
    requires AllTarget(ws + [w], p.Keys)
    ensures AllTarget(ws, p.Keys) && Targets(w, p.Keys)
    ensures ApplyAll(p, ws + [w]) == ApplyPlain(ApplyAll(p, ws), w)
    ensures Touched(ws + [w]) == Touched(ws) + KeysOf(w)
  {
    assert (ws + [w])[..|ws|] == ws && (ws + [w])[|ws|] == w;
    assert forall v :: v in ws ==> v in ws + [w];
    assert w in ws + [w];
  }

  lemma FollowsStep(c: Cipher, before: Store, s: Store, p: Plain, read: seq<ChunkKey>, w: Write)
    requires RoundTrips(c) && Follows(c, before, s, p, read) && Targets(w, p.Keys)
    ensures Targets(w, s.blobs.Keys) && Apply(c, s.blobs, w).Some?
    ensures Follows(c, before, WriteStep(c, s, w), ApplyPlain(p, w), read + KeysOf(w))
  {
    StepShows(c, s, p, w);
    assert before.decrypts + read + KeysOf(w) == before.decrypts + (read + KeysOf(w));
  }

  lemma AppliedNext(p: Plain, ws: seq<Write>, i: nat)
    requires AllTarget(ws, p.Keys) && i < |ws|
    ensures AllTarget(ws[..i], p.Keys) && AllTarget(ws[..i + 1], p.Keys) && Targets(ws[i], p.Keys)
    ensures ApplyAll(p, ws[..i + 1]) == ApplyPlain(ApplyAll(p, ws[..i]), ws[i])
    ensures Touched(ws[..i + 1]) == Touched(ws[..i]) + KeysOf(ws[i])
  {
    assert ws[..i + 1] == ws[..i] + [ws[i]];
    AppliedSnoc(p, ws[..i], ws[i]);
  }

  /** One write on a readable store. */
  method WriteReadable(store: SecureChunkStore, w: Write, ghost before: Store, ghost p: Plain,
                       ghost read: seq<ChunkKey>) returns (ok: bool)
    requires RoundTrips(store.cipher) && Follows(store.cipher, before, store.State(), p, read)
    requires Targets(w, p.Keys)
    modifies store`blobs, store`decrypts
    ensures ok && Follows(store.cipher, before, store.State(), ApplyPlain(p, w), read + KeysOf(w))
  {
    FollowsStep(store.cipher, before, store.State(), p, read, w);
    ok := WriteOnce(store, w);
  }

  /** The benchmark loop on a readable store: no write raises, and the store comes
      to show the plain effect of all of them. */
  method WriteAll(store: SecureChunkStore, ws: seq<Write>, ghost p: Plain) returns (ok: bool)
    requires RoundTrips(store.cipher) && Shows(store.cipher, store.blobs, p)
    requires AllTarget(ws, p.Keys)
    modifies store`blobs, store`decrypts
    ensures ok && Follows(store.cipher, old(store.State()), store.State(), ApplyAll(p, ws), Touched(ws))
  {
    ok := true;
    for i := 0 to |ws|
      invariant ok
      invariant Follows(store.cipher, old(store.State()), store.State(), ApplyAll(p, ws[..i]), Touched(ws[..i]))
    {
      AppliedNext(p, ws, i);
      ok := WriteReadable(store, ws[i], old(store.State()), ApplyAll(p, ws[..i]), Touched(ws[..i]));
    }
    assert ws[..|ws|] == ws;
  }
}
