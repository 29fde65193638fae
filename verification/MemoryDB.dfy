/**
 database/memdb: the in-memory database, its batches and its iterators over a sorted snapshot of the
 keys.
 */
module MemoryDB {
  import opened Wrappers
  import opened Bytes
  import opened Db = Database
  import opened Entries
  import opened Sorting

  datatype Error = Closed | NotFound

  predicate HasPrefix(key: bytes, prefix: bytes) {
    prefix <= key
  }

  ghost predicate Increasing(keys: seq<bytes>) {
    forall i, j | 0 <= i < j < |keys| :: Less(keys[i], keys[j])
  }

  // The keys an iteration visits: those with the prefix that are not before start, in order.
  ghost predicate Visits(keys: seq<bytes>, db: Store, start: bytes, prefix: bytes) {
    && Increasing(keys)
    && forall k :: k in keys <==> k in db && HasPrefix(k, prefix) && !Less(k, start)
  }

  // There is one such sequence.
  lemma {:induction false} OneVisit(a: seq<bytes>, b: seq<bytes>)
    requires Increasing(a) && Increasing(b)
    requires forall k :: k in a <==> k in b
    ensures a == b
    decreases |a|
  {
    NonEmpty(a);
    NonEmpty(b);
    if a != [] {
      assert b != [];
      SameFirst(a, b);
      RestSame(a, b);
      OneVisit(a[1..], b[1..]);
      assert a == [a[0]] + a[1..] && b == [b[0]] + b[1..];
    }
  }

  lemma NonEmpty(s: seq<bytes>)
    ensures s != [] <==> exists k :: k in s
  {
    if s != [] {
      assert s[0] in s;
    }
  }

  lemma SameFirst(a: seq<bytes>, b: seq<bytes>)
    requires Increasing(a) && Increasing(b)
    requires a != [] && b != [] && a[0] in b && b[0] in a
    ensures a[0] == b[0]
  {
    var i :| 0 <= i < |b| && b[i] == a[0];
    var j :| 0 <= j < |a| && a[j] == b[0];
    if i > 0 && j > 0 {
      LessTransitive(a[0], b[0], a[0]);
      LessIrreflexive(a[0]);
    }
  }

  lemma RestSame(a: seq<bytes>, b: seq<bytes>)
    requires Increasing(a) && Increasing(b)
    requires a != [] && b != [] && a[0] == b[0] && forall k :: k in a <==> k in b
    ensures forall k :: k in a[1..] <==> k in b[1..]
  {
    assert forall k :: k in a <==> k == a[0] || k in a[1..];
    assert forall k :: k in b <==> k == b[0] || k in b[1..];
    LessIrreflexive(a[0]);
    assert forall j | 0 < j < |a| :: a[j] != a[0];
    assert forall j | 0 < j < |b| :: b[j] != b[0];
    assert a[0] !in a[1..] && b[0] !in b[1..];
  }

  class MemDB {
    var closed: bool
    var db: Store

    constructor ()
      ensures !closed && db == map[]
    {
      closed, db := false, map[];
    }

    method Close() returns (ok: bool)
      modifies this
      ensures closed && ok == !old(closed) && db == map[]
    {
      ok := !closed;
      closed, db := true, map[];
    }

    method Has(key: bytes) returns (r: Result<bool, Error>)
      ensures r == if closed then Err(Closed) else Ok(key in db)
    {
      return if closed then Err(Closed) else Ok(key in db);
    }

    method Get(key: bytes) returns (r: Result<bytes, Error>)
      ensures r == if closed then Err(Closed) else if key in db then Ok(db[key]) else Err(NotFound)
    {
      return if closed then Err(Closed) else if key in db then Ok(db[key]) else Err(NotFound);
    }

    method Put(key: bytes, value: bytes) returns (ok: bool)
      modifies `db
      ensures ok == !closed && db == if ok then old(db)[key := value] else old(db)
    {
      if closed {
        return false;
      }
      db := db[key := value];
      return true;
    }

    method Delete(key: bytes) returns (ok: bool)
      modifies `db
      ensures ok == !closed && db == if ok then old(db) - {key} else old(db)
    {
      if closed {
        return false;
      }
      db := db - {key};
      return true;
    }

    // The keys to visit, collected in any order and sorted.
    method KeysFrom(start: bytes, prefix: bytes) returns (keys: seq<bytes>)
      ensures Visits(keys, db, start, prefix)
    {
      keys := [];
      var left := db.Keys;
      while left != {}
        invariant left <= db.Keys && AllDifferent(keys)
        invariant forall k :: k in keys <==> k in db.Keys - left && HasPrefix(k, prefix) && !Less(k, start)
      {
        var key :| key in left;
        if HasPrefix(key, prefix) && !Less(key, start) {
          keys := keys + [key];
        }
        left := left - {key};
      }
      SortedStrictly(keys);
      keys := Sort(keys, NotAfter);
    }

    method NewIterator(start: bytes, prefix: bytes) returns (it: Iterator)
      ensures fresh(it) && it.db == this && it.Valid() && it.failed == closed
      ensures !closed ==> Visits(it.Keys(), db, start, prefix)
      ensures !closed ==> forall e | e in it.Remaining() :: e.key in db && e.value == db[e.key]
      ensures closed ==> it.Remaining() == []
    {
      if closed {
        it := new Iterator(this, [], [], true);
        return;
      }
      var keys := KeysFrom(start, prefix);
      var values: seq<bytes> := [];
      for i := 0 to |keys|
        invariant |values| == i && forall j | 0 <= j < i :: keys[j] in db && values[j] == db[keys[j]]
      {
        var k := keys[i];
        assert k in keys;
        values := values + [db[k]];
      }
      it := new Iterator(this, keys, values, false);
      assert it.Keys() == keys;
    }
  }

  lemma SortedStrictly(keys: seq<bytes>)
    requires AllDifferent(keys)
    ensures var sorted := Sort(keys, NotAfter);
            Increasing(sorted) && forall k :: k in sorted <==> k in keys
  {
    var sorted := Sort(keys, NotAfter);
    NotAfterIsOrder();
    SortOrdered(keys, NotAfter);
    SortMembers(keys, NotAfter);
    SortDistinct(keys, NotAfter);
    forall i, j | 0 <= i < j < |sorted|
      ensures Less(sorted[i], sorted[j])
    {
      assert NotAfter(sorted[i], sorted[j]);
      LessTotal(sorted[i], sorted[j]);
    }
  }

  // ---------- Batches ----------

  function SizeOf(ws: seq<Write>): nat {
    if ws == [] then 0
    else
      var last := ws[|ws| - 1];
      SizeOf(ws[..|ws| - 1]) + |last.key| + if last.Put? then |last.value| else 0
  }

  class Batch {
    const db: MemDB
    var writes: seq<Write>
    var size: nat

    constructor (db: MemDB)
      ensures this.db == db && writes == [] && Valid()
    {
      this.db, writes, size := db, [], 0;
    }

    ghost predicate Valid()
      reads this
    {
      size == SizeOf(writes)
    }

    method Put(key: bytes, value: bytes)
      requires Valid()
      modifies this
      ensures Valid() && writes == old(writes) + [Db.Write.Put(key, value)]
    {
      ghost var was := writes;
      writes, size := writes + [Db.Write.Put(key, value)], size + |key| + |value|;
      assert writes[..|was|] == was;
    }

    method Delete(key: bytes)
      requires Valid()
      modifies this
      ensures Valid() && writes == old(writes) + [Db.Write.Delete(key)]
    {
      ghost var was := writes;
      writes, size := writes + [Db.Write.Delete(key)], size + |key|;
      assert writes[..|was|] == was;
    }

    // Writing a batch is applying its operations in order.
    method Write() returns (ok: bool)
      modifies db`db
      ensures ok == !db.closed && db.db == if ok then ApplyWrites(old(db.db), writes) else old(db.db)
    {
      if db.closed {
        return false;
      }
      for i := 0 to |writes|
        invariant db.db == ApplyWrites(old(db.db), writes[..i])
      {
        assert writes[..i + 1][..i] == writes[..i];
        if writes[i].Delete? {
          db.db := db.db - {writes[i].key};
        } else {
          db.db := db.db[writes[i].key := writes[i].value];
        }
      }
      assert writes[..|writes|] == writes;
      return true;
    }

    method Reset()
      modifies this
      ensures Valid() && writes == []
    {
      writes, size := [], 0;
    }

    // Replaying onto another batch appends the operations to it.
    method Replay(target: Batch)
      requires target != this && target.Valid()
      modifies target
      ensures target.Valid() && target.writes == old(target.writes) + writes
    {
      for i := 0 to |writes|
        invariant target.Valid() && target.writes == old(target.writes) + writes[..i]
      {
        if writes[i].Delete? {
          target.Delete(writes[i].key);
        } else {
          target.Put(writes[i].key, writes[i].value);
        }
        assert writes[..i + 1] == writes[..i] + [writes[i]];
      }
    }
  }

  // ---------- Iterators ----------

  function Pairs(keys: seq<bytes>, values: seq<bytes>): seq<Entry<bytes, bytes>>
    requires |keys| == |values|
  {
    seq(|keys|, i requires 0 <= i < |keys| => Entry(keys[i], values[i]))
  }

  class Iterator {
    const db: MemDB
    var initialized: bool
    var keys: seq<bytes>
    var values: seq<bytes>
    var failed: bool

    constructor (db: MemDB, keys: seq<bytes>, values: seq<bytes>, failed: bool)
      requires |keys| == |values|
      ensures this.db == db && !initialized && this.keys == keys && this.values == values && this.failed == failed
    {
      this.db, initialized, this.keys, this.values, this.failed := db, false, keys, values, failed;
    }

    ghost predicate Valid()
      reads this
    {
      |keys| == |values|
    }

    // The keys still to come.
    ghost function Keys(): seq<bytes>
      reads this
    {
      if initialized && keys != [] then keys[1..] else keys
    }

    // The entries still to come.
    ghost function Remaining(): seq<Entry<bytes, bytes>>
      requires Valid()
      reads this
    {
      if initialized && keys != [] then Pairs(keys[1..], values[1..]) else Pairs(keys, values)
    }

    // Next moves to the first remaining entry, if there is one and the database is still open.
    method Next() returns (more: bool)
      requires Valid()
      modifies this
      ensures Valid() && (more <==> !db.closed && old(Remaining()) != [])
      ensures more ==> keys != [] && Entry(keys[0], values[0]) == old(Remaining())[0]
      ensures more ==> Remaining() == old(Remaining())[1..] && failed == old(failed)
      ensures !more ==> Remaining() == [] && (db.closed ==> failed)
    {
      if db.closed {
        keys, values, failed := [], [], true;
        return false;
      }
      if !initialized {
        initialized := true;
        return |keys| > 0;
      }
      if |keys| > 0 {
        keys, values := keys[1..], values[1..];
      }
      return |keys| > 0;
    }
  }
}
