// Layer 2: the dictionary from chunk key to chunk ids (core/index.py).
module SmartIndex {
  import opened Types
  import opened KeyLists
  import opened Segmentation

  /** `index.get(key)`, an absent key having no ids. */
  function Ids(index: map<ChunkKey, seq<nat>>, key: ChunkKey): seq<nat> {
    if key in index then index[key] else []
  }

  /** Built from the chunks of a segmentation, the index finds the `i`-th chunk,
      and only it, under its key; a key without records has no ids, and no id is
      shared by two keys. */
  lemma IndexFindsChunks(index: map<ChunkKey, seq<nat>>, order: seq<ChunkKey>, chunks: map<ChunkKey, Chunk>,
                         rs: seq<Record>, ext: Extractor, k: ChunkKey, j: ChunkKey)
    requires Segmented(order, chunks, rs, ext)
    requires index.Keys == Keys(order) && forall x :: x in index ==> index[x] == [chunks[x].chunkId]
    ensures Ids(index, k) == [] <==> Matching(rs, ext, k) == []
    ensures forall i :: 0 <= i < |order| ==> (Ids(index, k) == [i] <==> order[i] == k)
    ensures k != j ==> Keyed(Ids(index, k)) !! Keyed(Ids(index, j))
  {
    FirstKeysAre(rs, ext);
    assert k in order <==> k in Keys(order);
    assert j in order <==> j in Keys(order);
  }

  function Keyed(ids: seq<nat>): set<nat> {
    set id | id in ids
  }

  class Index {
    var index: map<ChunkKey, seq<nat>>

    constructor ()
      ensures index == map[]
    {
      index := map[];
    }

    /** One id list per chunk, replacing any earlier index. */
    method Build(order: seq<ChunkKey>, chunks: map<ChunkKey, Chunk>)
      requires Distinct(order) && forall k :: k in order ==> k in chunks
      modifies this
      ensures index.Keys == Keys(order)
      ensures forall k :: k in index ==> index[k] == [chunks[k].chunkId]
    {
      var built: map<ChunkKey, seq<nat>> := map[];
      for i := 0 to |order|
        invariant built.Keys == Keys(order[..i])
        invariant forall k :: k in built ==> built[k] == [chunks[k].chunkId]
      {
        var k := order[i];
        assert order[..i + 1] == order[..i] + [k];
        assert k !in Keys(order[..i]);
        // setdefault(key, []).append(chunk_id)
        built := built[k := Ids(built, k) + [chunks[k].chunkId]];
      }
      assert order[..|order|] == order;
      index := built;
    }

    /** A known key's own ids, nothing for an absent one. */
    method Lookup(key: ChunkKey) returns (ids: seq<nat>)
      ensures key in index ==> ids == index[key]
      ensures key !in index ==> ids == []
    {
      if key !in index {
        return [];
      }
      return index[key];
    }
  }
}
