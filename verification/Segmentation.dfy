// Layer 1: grouping records into chunks by an extracted key (core/segmenter.py).
module Segmentation {
  import opened Types
  import opened KeyLists

  type Extractor = Record -> ChunkKey

  /******* What the grouping means *******/

  /** The linear scan: the records with key `k`, in their original order. */
  function Matching(rs: seq<Record>, ext: Extractor, k: ChunkKey): seq<Record> {
    if rs == [] then []
    else
      var r := rs[|rs| - 1];
      Matching(rs[..|rs| - 1], ext, k) + if ext(r) == k then [r] else []
  }

  /** The extracted keys in the order of first appearance. */
  function FirstKeys(rs: seq<Record>, ext: Extractor): seq<ChunkKey> {
    if rs == [] then [] else Assign(FirstKeys(rs[..|rs| - 1], ext), ext(rs[|rs| - 1]))
  }

  /** The chunks' records one after the other. */
  function Flatten(order: seq<ChunkKey>, rs: seq<Record>, ext: Extractor): seq<Record> {
    if order == [] then []
    else Flatten(order[..|order| - 1], rs, ext) + Matching(rs, ext, order[|order| - 1])
  }

  function Reassembled(rs: seq<Record>, ext: Extractor): seq<Record> {
    Flatten(FirstKeys(rs, ext), rs, ext)
  }

  lemma {:induction false} FirstKeysAre(rs: seq<Record>, ext: Extractor)
    ensures Distinct(FirstKeys(rs, ext))
    ensures forall k :: k in FirstKeys(rs, ext) <==> Matching(rs, ext, k) != []
  {
    if rs != [] {
      FirstKeysAre(rs[..|rs| - 1], ext);
    }
  }

  lemma {:induction false} MatchingHasKey(rs: seq<Record>, ext: Extractor, k: ChunkKey)
    ensures forall r :: r in Matching(rs, ext, k) ==> ext(r) == k && r in rs
  {
    if rs != [] {
      MatchingHasKey(rs[..|rs| - 1], ext, k);
    }
  }

  /** The matching records are those at positions `at`, in order: every position
      whose record has the key, and no other. */
  lemma {:induction false} MatchingInOrder(rs: seq<Record>, ext: Extractor, k: ChunkKey) returns (at: seq<nat>)
    ensures |at| == |Matching(rs, ext, k)|
    ensures forall i :: 0 <= i < |at| ==> at[i] < |rs| && rs[at[i]] == Matching(rs, ext, k)[i]
    ensures forall i, j :: 0 <= i < j < |at| ==> at[i] < at[j]
    ensures forall n: nat :: n < |rs| ==> (n in at <==> ext(rs[n]) == k)
  {
    at := [];
    if rs != [] {
      var n := |rs| - 1;
      at := MatchingInOrder(rs[..n], ext, k);
      if ext(rs[n]) == k {
        at := at + [n];
      }
    }
  }

  /** `keys[i]` first appears at position `at[i]`, and later keys appear later. */
  ghost predicate FirstAt(rs: seq<Record>, ext: Extractor, keys: seq<ChunkKey>, at: seq<nat>) {
    && |at| == |keys|
    && (forall i :: 0 <= i < |at| ==> at[i] < |rs| && ext(rs[at[i]]) == keys[i])
    && (forall i, n: nat :: 0 <= i < |at| && n < at[i] < |rs| ==> ext(rs[n]) != keys[i])
    && (forall i, j :: 0 <= i < j < |at| ==> at[i] < at[j])
  }

  lemma FirstAtSnoc(rs: seq<Record>, ext: Extractor, keys: seq<ChunkKey>, at: seq<nat>, r: Record)
    requires FirstAt(rs, ext, keys, at)
    ensures FirstAt(rs + [r], ext, keys, at)
    ensures (forall n :: 0 <= n < |rs| ==> ext(rs[n]) != ext(r)) ==>
              FirstAt(rs + [r], ext, keys + [ext(r)], at + [|rs|])
  {
  }

  /** The extracted keys come in the order in which they first appear, and none is missing. */
  lemma {:induction false} FirstKeysByAppearance(rs: seq<Record>, ext: Extractor) returns (at: seq<nat>)
    ensures FirstAt(rs, ext, FirstKeys(rs, ext), at)
    ensures forall n :: 0 <= n < |rs| ==> ext(rs[n]) in FirstKeys(rs, ext)
  {
    at := [];
    if rs != [] {
      var n := |rs| - 1;
      var before, r := rs[..n], rs[n];
      assert rs == before + [r];
      at := FirstKeysByAppearance(before, ext);
      FirstAtSnoc(before, ext, FirstKeys(before, ext), at, r);
      if ext(r) !in FirstKeys(before, ext) {
        at := at + [n];
      }
    }
  }

  lemma {:induction false} MatchingAppend(a: seq<Record>, b: seq<Record>, ext: Extractor, k: ChunkKey)
    ensures Matching(a + b, ext, k) == Matching(a, ext, k) + Matching(b, ext, k)
  {
    if b == [] {
      assert a + b == a;
    } else {
      var n := |b| - 1;
      MatchingAppend(a, b[..n], ext, k);
      assert (a + b)[..|a + b| - 1] == a + b[..n];
    }
  }

  /** A block whose records all have key `j`. */
  lemma {:induction false} MatchingBlock(b: seq<Record>, ext: Extractor, j: ChunkKey, k: ChunkKey)
    requires forall r :: r in b ==> ext(r) == j
    ensures Matching(b, ext, k) == if j == k then b else []
  {
    if b != [] {
      MatchingBlock(b[..|b| - 1], ext, j, k);
    }
  }

  lemma {:induction false} FirstKeysBlock(a: seq<Record>, b: seq<Record>, ext: Extractor, j: ChunkKey)
    requires forall r :: r in b ==> ext(r) == j
    ensures FirstKeys(a + b, ext) == if b == [] then FirstKeys(a, ext) else Assign(FirstKeys(a, ext), j)
  {
    if b == [] {
      assert a + b == a;
    } else {
      var n := |b| - 1;
      FirstKeysBlock(a, b[..n], ext, j);
      assert (a + b)[..|a + b| - 1] == a + b[..n];
      assert ext(b[n]) == j;
    }
  }

  lemma {:induction false} FlattenMatching(order: seq<ChunkKey>, rs: seq<Record>, ext: Extractor, k: ChunkKey)
    requires Distinct(order)
    ensures Matching(Flatten(order, rs, ext), ext, k) == if k in order then Matching(rs, ext, k) else []
  {
    if order != [] {
      var n := |order| - 1;
      DistinctSnoc(order);
      FlattenMatching(order[..n], rs, ext, k);
      FlattenMatchingSnoc(Flatten(order[..n], rs, ext), rs, ext, order[n], k);
    }
  }

  lemma FlattenMatchingSnoc(a: seq<Record>, rs: seq<Record>, ext: Extractor, j: ChunkKey, k: ChunkKey)
    ensures Matching(a + Matching(rs, ext, j), ext, k) ==
            Matching(a, ext, k) + if j == k then Matching(rs, ext, k) else []
  {
    MatchingHasKey(rs, ext, j);
    MatchingBlock(Matching(rs, ext, j), ext, j, k);
    MatchingAppend(a, Matching(rs, ext, j), ext, k);
  }

  lemma {:induction false} FlattenFirstKeys(order: seq<ChunkKey>, rs: seq<Record>, ext: Extractor)
    requires Distinct(order) && forall k :: k in order ==> Matching(rs, ext, k) != []
    ensures FirstKeys(Flatten(order, rs, ext), ext) == order
  {
    if order != [] {
      var n := |order| - 1;
      DistinctSnoc(order);
      FlattenFirstKeys(order[..n], rs, ext);
      FlattenFirstKeysSnoc(Flatten(order[..n], rs, ext), rs, ext, order[n]);
      assert order == order[..n] + [order[n]];
    }
  }

  lemma FlattenFirstKeysSnoc(a: seq<Record>, rs: seq<Record>, ext: Extractor, j: ChunkKey)
    requires Matching(rs, ext, j) != []
    ensures FirstKeys(a + Matching(rs, ext, j), ext) == Assign(FirstKeys(a, ext), j)
  {
    MatchingHasKey(rs, ext, j);
    FirstKeysBlock(a, Matching(rs, ext, j), ext, j);
  }

  /** Segmenting the reassembled records gives the same chunks in the same order. */
  lemma SegmentAgain(rs: seq<Record>, ext: Extractor)
    ensures FirstKeys(Reassembled(rs, ext), ext) == FirstKeys(rs, ext)
    ensures forall k :: Matching(Reassembled(rs, ext), ext, k) == Matching(rs, ext, k)
  {
    FirstKeysAre(rs, ext);
    FlattenFirstKeys(FirstKeys(rs, ext), rs, ext);
    forall k
      ensures Matching(Reassembled(rs, ext), ext, k) == Matching(rs, ext, k)
    {
      FlattenMatching(FirstKeys(rs, ext), rs, ext, k);
    }
  }

  lemma {:induction false} FlattenOneMore(order: seq<ChunkKey>, rs: seq<Record>, r: Record, ext: Extractor)
    requires Distinct(order)
    ensures multiset(Flatten(order, rs + [r], ext)) ==
            multiset(Flatten(order, rs, ext)) + if ext(r) in order then multiset{r} else multiset{}
  {
    if order != [] {
      var n := |order| - 1;
      DistinctSnoc(order);
      FlattenOneMore(order[..n], rs, r, ext);
      assert (rs + [r])[..|rs|] == rs;
    }
  }

  /** Every record lands in exactly one chunk: reassembly is a permutation. */
  lemma {:induction false} NothingLost(rs: seq<Record>, ext: Extractor)
    ensures multiset(Reassembled(rs, ext)) == multiset(rs)
  {
    if rs != [] {
      var before, r := rs[..|rs| - 1], rs[|rs| - 1];
      assert rs == before + [r];
      NothingLost(before, ext);
      FirstKeysAre(before, ext);
      var order := FirstKeys(before, ext);
      FlattenOneMore(order, before, r, ext);
      if ext(r) !in order {
        FlattenNewKey(order, before, r, ext);
      }
    }
  }

  /** A record with a new key adds a chunk of its own at the end. */
  lemma FlattenNewKey(order: seq<ChunkKey>, rs: seq<Record>, r: Record, ext: Extractor)
    requires Matching(rs, ext, ext(r)) == []
    ensures Flatten(order + [ext(r)], rs + [r], ext) == Flatten(order, rs + [r], ext) + [r]
  {
    assert (order + [ext(r)])[..|order|] == order;
    assert (rs + [r])[..|rs|] == rs;
  }

  /******* The segmenter *******/

  class Chunk {
    const chunkId: nat
    const chunkKey: ChunkKey
    const region: Value
    var records: seq<Record>

    constructor (chunkId: nat, chunkKey: ChunkKey, region: Value)
      ensures this.chunkId == chunkId && this.chunkKey == chunkKey && this.region == region
      ensures records == []
    {
      this.chunkId := chunkId;
      this.chunkKey := chunkKey;
      this.region := region;
      records := [];
    }
  }

  /** The chunk dictionary, `order` being its insertion order: chunk `i` has id
      `i`, the `i`-th key, that key's region, and exactly the matching records. */
  ghost predicate Holds(order: seq<ChunkKey>, chunks: map<ChunkKey, Chunk>, rs: seq<Record>, ext: Extractor)
    reads chunks.Values
  {
    && chunks.Keys == Keys(order)
    && (forall i :: 0 <= i < |order| ==> order[i] in chunks && chunks[order[i]].chunkId == i)
    && (forall k :: k in chunks ==>
          && chunks[k].chunkKey == k
          && chunks[k].region == k.region
          && chunks[k].records == Matching(rs, ext, k))
  }

  ghost predicate Segmented(order: seq<ChunkKey>, chunks: map<ChunkKey, Chunk>, rs: seq<Record>, ext: Extractor)
    reads chunks.Values
  {
    order == FirstKeys(rs, ext) && Holds(order, chunks, rs, ext)
  }

  /** An extractor as the source has it: None where it raises. */
  type RawExtractor = Record -> Option<ChunkKey>

  function KeyBy(raw: RawExtractor): Extractor {
    r => if raw(r).Some? then raw(r).value else ChunkKey(Null, Null, Null)
  }

  ghost predicate Accepts(raw: RawExtractor, rs: seq<Record>) {
    forall r :: r in rs ==> raw(r).Some?
  }

  /** Raises exactly when the extractor raises on some record. */
  method Segment(rs: seq<Record>, raw: RawExtractor)
    returns (raised: bool, order: seq<ChunkKey>, chunks: map<ChunkKey, Chunk>)
    ensures raised <==> !Accepts(raw, rs)
    ensures !raised ==> Segmented(order, chunks, rs, KeyBy(raw))
    ensures forall k :: k in chunks ==> fresh(chunks[k])
  {
    raised, order, chunks := false, [], map[];
    for i := 0 to |rs|
      invariant Accepts(raw, rs[..i]) && Segmented(order, chunks, rs[..i], KeyBy(raw))
      invariant forall k :: k in chunks ==> fresh(chunks[k])
    {
      var key := raw(rs[i]);
      if key.None? {
        assert rs[i] in rs;
        return true, order, chunks;
      }
      assert rs[..i] + [rs[i]] == rs[..i + 1];
      order, chunks := Place(order, chunks, rs[..i], rs[i], key.value, KeyBy(raw));
    }
    assert rs[..|rs|] == rs;
  }

  /** One turn of the loop: find or create the record's chunk, then append. */
  method Place(order: seq<ChunkKey>, chunks: map<ChunkKey, Chunk>, ghost done: seq<Record>, record: Record,
               key: ChunkKey, ghost ext: Extractor)
    returns (order': seq<ChunkKey>, chunks': map<ChunkKey, Chunk>)
    requires Segmented(order, chunks, done, ext) && key == ext(record)
    modifies chunks.Values
    ensures Segmented(order', chunks', done + [record], ext)
    ensures forall k :: k in chunks' ==> fresh(chunks'[k]) || (k in chunks && chunks'[k] == chunks[k])
  {
    order', chunks' := order, chunks;
    assert (done + [record])[..|done|] == done;
    FirstKeysAre(done, ext);
    assert key in order <==> key in Keys(order);
    if key !in chunks {
      order', chunks' := NewChunk(order, chunks, done, key, ext);
    }
    Append(order', chunks', done, record, key, ext);
  }

  method NewChunk(order: seq<ChunkKey>, chunks: map<ChunkKey, Chunk>, ghost done: seq<Record>, key: ChunkKey,
                  ghost ext: Extractor)
    returns (order': seq<ChunkKey>, chunks': map<ChunkKey, Chunk>)
    requires Holds(order, chunks, done, ext) && key !in chunks && Matching(done, ext, key) == []
    ensures order' == order + [key] && Holds(order', chunks', done, ext)
    ensures chunks'.Keys == chunks.Keys + {key} && fresh(chunks'[key])
    ensures forall k :: k in chunks ==> chunks'[k] == chunks[k]
  {
    var chunk := new Chunk(|order|, key, key.region);
    chunks' := chunks[key := chunk];
    order' := order + [key];
    assert Keys(order') == Keys(order) + {key};
    assert forall i :: 0 <= i < |order| ==> order[i] in Keys(order);
  }

  method Append(order: seq<ChunkKey>, chunks: map<ChunkKey, Chunk>, ghost done: seq<Record>, record: Record,
                key: ChunkKey, ghost ext: Extractor)
    requires Holds(order, chunks, done, ext) && key == ext(record) && key in chunks
    modifies chunks[key]
    ensures Holds(order, chunks, done + [record], ext)
  {
    assert (done + [record])[..|done|] == done;
    var chunk := chunks[key];
    chunk.records := chunk.records + [record];
    assert forall k :: k in chunks && k != key ==> chunks[k] != chunk;
  }

  /** On the chunks of `Segment(rs, ext)` the result is `Reassembled(rs, ext)`. */
  method Reassemble(order: seq<ChunkKey>, chunks: map<ChunkKey, Chunk>, ghost rs: seq<Record>, ghost ext: Extractor)
    returns (out: seq<Record>)
    requires Holds(order, chunks, rs, ext)
    ensures out == Flatten(order, rs, ext)
  {
    out := [];
    for i := 0 to |order|
      invariant out == Flatten(order[..i], rs, ext)
    {
      var k := order[i];
      FlattenSnoc(order[..i], k, rs, ext);
      assert order[..i] + [k] == order[..i + 1];
      out := out + chunks[k].records;
    }
    assert order[..|order|] == order;
  }

  lemma FlattenSnoc(order: seq<ChunkKey>, k: ChunkKey, rs: seq<Record>, ext: Extractor)
    ensures Flatten(order + [k], rs, ext) == Flatten(order, rs, ext) + Matching(rs, ext, k)
  {
    assert (order + [k])[..|order|] == order;
  }

  /******* Key extractors *******/

  /** `record.get(name, default)` */
  function Field(r: Record, name: string, default: Value): Value {
    if name in r then r[name] else default
  }

  /** What Python's int() makes of a value: `Overflow` is an OverflowError, as
      for a float infinity, and `NotInt` a ValueError or TypeError. */
  datatype Parsed = Int(n: int) | NotInt | Overflow

  type ToInt = Value -> Parsed

  /** `_safe_int` catches all but the OverflowError, which it lets through (None). */
  function SafeInt(toInt: ToInt, v: Value): Option<int> {
    match toInt(v)
    case Int(n) => Some(n)
    case NotInt => Some(0)
    case Overflow => None
  }

  /** The extractors; None where they raise. */
  function KddKey(toInt: ToInt, r: Record): Option<ChunkKey> {
    var src := SafeInt(toInt, Field(r, "src_bytes", Num(0)));
    var dst := SafeInt(toInt, Field(r, "dst_bytes", Num(0)));
    if src.None? || dst.None? then None
    else Some(ChunkKey(Num(src.value % 24), Num(dst.value % 8), Field(r, "protocol_type", Text("unknown"))))
  }

  function TaxiKey(toInt: ToInt, r: Record): Option<ChunkKey> {
    var hour := SafeInt(toInt, Field(r, "pickup_hour", Num(0)));
    if hour.None? then None
    else Some(ChunkKey(Num(hour.value % 24), Field(r, "borough_id", Null), Field(r, "trip_type", Text("unknown"))))
  }

  function WeblogKey(toInt: ToInt, r: Record): Option<ChunkKey> {
    var hour :=
      if "timestamp_hour" in r then SafeInt(toInt, r["timestamp_hour"])
      else
        match SafeInt(toInt, Field(r, "timestamp", Num(0)))
        case None => None
        case Some(epoch) => Some((epoch / 3600) % 24);
    if hour.None? then None
    else Some(ChunkKey(Num(hour.value % 24), Field(r, "geo_region", Null), Field(r, "log_level", Text("unknown"))))
  }

  function Kdd(toInt: ToInt): RawExtractor {
    r => KddKey(toInt, r)
  }

  function Taxi(toInt: ToInt): RawExtractor {
    r => TaxiKey(toInt, r)
  }

  function Weblog(toInt: ToInt): RawExtractor {
    r => WeblogKey(toInt, r)
  }

  ghost predicate InWindow(key: Option<ChunkKey>) {
    key.Some? ==> key.value.timeWindow.Num? && 0 <= key.value.timeWindow.n < 24
  }

  /** An extractor raises exactly when int() overflows on a field it reads; any
      other field that does not parse counts as 0, and the bucketed components
      stay in range. */
  lemma ExtractorsRaiseIff(toInt: ToInt, r: Record)
    ensures KddKey(toInt, r).None? <==> toInt(Field(r, "src_bytes", Num(0))).Overflow? ||
                                        toInt(Field(r, "dst_bytes", Num(0))).Overflow?
    ensures TaxiKey(toInt, r).None? <==> toInt(Field(r, "pickup_hour", Num(0))).Overflow?
    ensures WeblogKey(toInt, r).None? <==>
            toInt(if "timestamp_hour" in r then r["timestamp_hour"] else Field(r, "timestamp", Num(0))).Overflow?
    ensures InWindow(KddKey(toInt, r)) && InWindow(TaxiKey(toInt, r)) && InWindow(WeblogKey(toInt, r))
    ensures
      var key := KddKey(toInt, r);
      key.Some? ==> key.value.region.Num? && 0 <= key.value.region.n < 8
  {
  }

  /** int() of a field: 0 where it is missing or malformed. */
  ghost predicate Reads(toInt: ToInt, r: Record, name: string, n: int) {
    if name !in r then n == 0 else toInt(r[name]) == Int(n) || (toInt(r[name]) == NotInt && n == 0)
  }

  /** The keys of a record, component by component, from the numbers int() reads. */
  lemma KddKeyIs(toInt: ToInt, r: Record, src: int, dst: int)
    requires IsPythonInt(toInt) && Reads(toInt, r, "src_bytes", src) && Reads(toInt, r, "dst_bytes", dst)
    ensures
      var key := KddKey(toInt, r);
      && key.Some? && key.value.timeWindow == Num(src % 24) && key.value.region == Num(dst % 8)
      && key.value.dataType == if "protocol_type" in r then r["protocol_type"] else Text("unknown")
  {
  }

  lemma TaxiKeyIs(toInt: ToInt, r: Record, hour: int)
    requires IsPythonInt(toInt) && Reads(toInt, r, "pickup_hour", hour)
    ensures
      var key := TaxiKey(toInt, r);
      && key.Some? && key.value.timeWindow == Num(hour % 24)
      && key.value.region == (if "borough_id" in r then r["borough_id"] else Null)
      && key.value.dataType == if "trip_type" in r then r["trip_type"] else Text("unknown")
  {
  }

  lemma WeblogKeyIs(toInt: ToInt, r: Record, n: int)
    requires IsPythonInt(toInt)
    requires Reads(toInt, r, if "timestamp_hour" in r then "timestamp_hour" else "timestamp", n)
    ensures
      var key := WeblogKey(toInt, r);
      && key.Some?
      && key.value.timeWindow == Num(if "timestamp_hour" in r then n % 24 else n / 3600 % 24)
      && key.value.region == (if "geo_region" in r then r["geo_region"] else Null)
      && key.value.dataType == if "log_level" in r then r["log_level"] else Text("unknown")
  {
  }

  /** What Python's int() does on the values here; how it reads a text is left open,
      but a text never overflows. */
  ghost predicate IsPythonInt(toInt: ToInt) {
    && toInt(Null) == NotInt
    && (forall n :: toInt(Num(n)) == Int(n))
    && (forall s :: !toInt(Text(s)).Overflow?)
    && (forall negative :: toInt(Infinite(negative)) == Overflow)
  }

  lemma OverflowIff(toInt: ToInt, v: Value)
    requires IsPythonInt(toInt)
    ensures toInt(v).Overflow? <==> v.Infinite?
  {
    match v
    case Null =>
    case Num(_) =>
    case Text(_) =>
    case Infinite(_) =>
  }

  /** So an extractor raises exactly when a field it reads is a float infinity. */
  lemma InfinityRaisesIff(toInt: ToInt, r: Record)
    requires IsPythonInt(toInt)
    ensures KddKey(toInt, r).None? <==> Field(r, "src_bytes", Num(0)).Infinite? ||
                                        Field(r, "dst_bytes", Num(0)).Infinite?
    ensures TaxiKey(toInt, r).None? <==> Field(r, "pickup_hour", Num(0)).Infinite?
    ensures WeblogKey(toInt, r).None? <==>
            (if "timestamp_hour" in r then r["timestamp_hour"] else Field(r, "timestamp", Num(0))).Infinite?
  {
    ExtractorsRaiseIff(toInt, r);
    OverflowIff(toInt, Field(r, "src_bytes", Num(0)));
    OverflowIff(toInt, Field(r, "dst_bytes", Num(0)));
    OverflowIff(toInt, Field(r, "pickup_hour", Num(0)));
    OverflowIff(toInt, if "timestamp_hour" in r then r["timestamp_hour"] else Field(r, "timestamp", Num(0)));
  }

  /** The promise never to raise on malformed input fails on this record. */
  lemma KddRaises(toInt: ToInt)
    requires IsPythonInt(toInt)
    ensures KddKey(toInt, map["src_bytes" := Infinite(false)]).None?
  {
    InfinityRaisesIff(toInt, map["src_bytes" := Infinite(false)]);
  }

  /** Two records share a KDD chunk iff protocols agree and sizes differ by
      multiples of 24 and 8. */
  lemma SameKddChunk(toInt: ToInt, r: Record, q: Record)
    requires KddKey(toInt, r).Some? && KddKey(toInt, q).Some?
    ensures
      var src, dst := Field(r, "src_bytes", Num(0)), Field(r, "dst_bytes", Num(0));
      var src', dst' := Field(q, "src_bytes", Num(0)), Field(q, "dst_bytes", Num(0));
      KddKey(toInt, r) == KddKey(toInt, q) <==>
      && (SafeInt(toInt, src).value - SafeInt(toInt, src').value) % 24 == 0
      && (SafeInt(toInt, dst).value - SafeInt(toInt, dst').value) % 8 == 0
      && Field(r, "protocol_type", Text("unknown")) == Field(q, "protocol_type", Text("unknown"))
  {
    var src, dst := SafeInt(toInt, Field(r, "src_bytes", Num(0))), SafeInt(toInt, Field(r, "dst_bytes", Num(0)));
    var src', dst' := SafeInt(toInt, Field(q, "src_bytes", Num(0))), SafeInt(toInt, Field(q, "dst_bytes", Num(0)));
    SameBucket(src.value, src'.value);
    SameBucket(dst.value, dst'.value);
  }

  lemma SameBucket(a: int, b: int)
    ensures a % 24 == b % 24 <==> (a - b) % 24 == 0
    ensures a % 8 == b % 8 <==> (a - b) % 8 == 0
  {
    Remainder24(a - b, a / 24 - b / 24, a % 24 - b % 24);
    Remainder8(a - b, a / 8 - b / 8, a % 8 - b % 8);
  }

  lemma Remainder24(x: int, q: int, d: int)
    requires x == 24 * q + d && -24 < d < 24
    ensures x % 24 == 0 <==> d == 0
  {
  }

  lemma Remainder8(x: int, q: int, d: int)
    requires x == 8 * q + d && -8 < d < 8
    ensures x % 8 == 0 <==> d == 0
  {
  }

  /** An epoch timestamp lands in the window of its explicit hour. */
  lemma WeblogHourOfEpoch(toInt: ToInt, r: Record, epoch: int, hour: int)
    requires "timestamp_hour" !in r && "timestamp" in r
    requires toInt(r["timestamp"]) == Int(epoch) && toInt(Num(hour)) == Int(hour)
    requires 3600 * hour <= epoch < 3600 * (hour + 1)
    ensures WeblogKey(toInt, r) == WeblogKey(toInt, r["timestamp_hour" := Num(hour)])
  {
    assert epoch / 3600 == hour;
  }
}
