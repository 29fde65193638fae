/**
 database.Batch over a key/value store: queued writes and what replaying them in order does.
 */
module Database {
  import opened Wrappers
  import opened Bytes

  type Store = map<bytes, bytes>

  datatype Write = Put(key: bytes, value: bytes) | Delete(key: bytes)

  function ApplyWrite(db: Store, w: Write): Store {
    match w
    case Put(k, v) => db[k := v]
    case Delete(k) => db - {k}
  }

  function ApplyWrites(db: Store, ws: seq<Write>): Store {
    if ws == [] then db else ApplyWrite(ApplyWrites(db, ws[..|ws| - 1]), ws[|ws| - 1])
  }
}
