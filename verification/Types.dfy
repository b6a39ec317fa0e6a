// The values that every layer passes around (core/types.py).
module Types {
  datatype Option<+T> = None | Some(value: T)

  /** A field of a record or a component of a chunk key. `Null` is Python's None,
      `Infinite` a float infinity, the one float that matters: int() overflows on it. */
  datatype Value = Null | Num(n: int) | Text(s: string) | Infinite(negative: bool)

  /** (time_window, region, data_type) */
  datatype ChunkKey = ChunkKey(timeWindow: Value, region: Value, dataType: Value)

  type Record = map<string, Value>

  /** The calls a cache accepts; `region` only matters to the frame caches. */
  datatype Op =
    | DoGet(k: ChunkKey, region: Value)
    | DoPut(k: ChunkKey, region: Value)
    | DoPin(k: ChunkKey)
    | DoUnpin(k: ChunkKey)

  function Min(x: int, y: int): int {
    if x < y then x else y
  }
}
