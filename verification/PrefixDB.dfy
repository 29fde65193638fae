/**
 database/prefixdb: a part of a database under a prefix. Prefixes are hashes: of the given prefix, or of
 the parent's prefix followed by it. They all have the same length; no two that are in use collide.
 */
module PrefixDB {
  import opened Wrappers
  import opened Bytes
  import opened Db = Database
  import opened Entries
  import opened Memory = MemoryDB

  // ---------- The part of a store under a prefix ----------

  ghost function View(db: Store, p: bytes): Store {
    map key | key in (set k | k in db && p <= k :: k[|p|..]) && p + key in db :: db[p + key]
  }

  lemma InView(db: Store, p: bytes, key: bytes)
    ensures key in View(db, p) <==> p + key in db
    ensures key in View(db, p) ==> View(db, p)[key] == db[p + key]
  {
    if p + key in db {
      assert p <= p + key && (p + key)[|p|..] == key;
    }
  }

  lemma SameView(db: Store, p: bytes, other: Store)
    requires forall key :: (key in other <==> p + key in db) && (key in other ==> other[key] == db[p + key])
    ensures View(db, p) == other
  {
    forall key
      ensures key in View(db, p) <==> key in other
      ensures key in other ==> View(db, p)[key] == other[key]
    {
      InView(db, p, key);
    }
  }

  lemma Injective(p: bytes, a: bytes, b: bytes)
    ensures p + a == p + b <==> a == b
  {
    assert (p + a)[|p|..] == a && (p + b)[|p|..] == b;
  }

  // Keys under different prefixes of the same length differ.
  lemma Disjoint(p: bytes, q: bytes, a: bytes, b: bytes)
    requires |p| == |q| && p != q
    ensures p + a != q + b
  {
    assert (p + a)[..|p|] == p && (q + b)[..|q|] == q;
  }

  function PrefixedWrite(p: bytes, w: Write): Write {
    if w.Put? then Write.Put(p + w.key, w.value) else Write.Delete(p + w.key)
  }

  // A write under a prefix is a write to its view...
  lemma WriteInView(db: Store, p: bytes, w: Write)
    ensures View(ApplyWrite(db, PrefixedWrite(p, w)), p) == ApplyWrite(View(db, p), w)
  {
    var db' := ApplyWrite(db, PrefixedWrite(p, w));
    forall key
      ensures key in ApplyWrite(View(db, p), w) <==> p + key in db'
      ensures key in ApplyWrite(View(db, p), w) ==> ApplyWrite(View(db, p), w)[key] == db'[p + key]
    {
      InView(db, p, key);
      Injective(p, key, w.key);
    }
    SameView(db', p, ApplyWrite(View(db, p), w));
  }

  // ... and to no other.
  lemma WriteOutsideView(db: Store, p: bytes, q: bytes, w: Write)
    requires |p| == |q| && p != q
    ensures View(ApplyWrite(db, PrefixedWrite(p, w)), q) == View(db, q)
  {
    var db' := ApplyWrite(db, PrefixedWrite(p, w));
    forall key
      ensures key in View(db, q) <==> q + key in db'
      ensures key in View(db, q) ==> View(db, q)[key] == db'[q + key]
    {
      InView(db, q, key);
      Disjoint(p, q, w.key, key);
    }
    SameView(db', q, View(db, q));
  }

  function Prefixed(p: bytes, ws: seq<Write>): seq<Write> {
    seq(|ws|, i requires 0 <= i < |ws| => PrefixedWrite(p, ws[i]))
  }

  lemma {:induction false} WritesInView(db: Store, p: bytes, ws: seq<Write>)
    ensures View(ApplyWrites(db, Prefixed(p, ws)), p) == ApplyWrites(View(db, p), ws)
  {
    if ws == [] {
    } else {
      var init := ws[..|ws| - 1];
      WritesInView(db, p, init);
      assert Prefixed(p, ws)[..|ws| - 1] == Prefixed(p, init);
      WriteInView(ApplyWrites(db, Prefixed(p, init)), p, ws[|ws| - 1]);
    }
  }

  lemma {:induction false} WritesOutsideView(db: Store, p: bytes, q: bytes, ws: seq<Write>)
    requires |p| == |q| && p != q
    ensures View(ApplyWrites(db, Prefixed(p, ws)), q) == View(db, q)
  {
    if ws != [] {
      var init := ws[..|ws| - 1];
      WritesOutsideView(db, p, q, init);
      assert Prefixed(p, ws)[..|ws| - 1] == Prefixed(p, init);
      WriteOutsideView(ApplyWrites(db, Prefixed(p, init)), p, q, ws[|ws| - 1]);
    }
  }

  // ---------- Iteration under a prefix ----------

  lemma {:induction false} OrderUnderPrefix(p: bytes, a: bytes, b: bytes)
    ensures Less(p + a, p + b) <==> Less(a, b)
  {
    if p == [] {
      assert p + a == a && p + b == b;
    } else {
      assert (p + a)[0] == p[0] == (p + b)[0] && (p + a)[1..] == p[1..] + a && (p + b)[1..] == p[1..] + b;
      OrderUnderPrefix(p[1..], a, b);
    }
  }

  lemma PrefixUnderPrefix(p: bytes, a: bytes, b: bytes)
    ensures HasPrefix(p + a, p + b) <==> HasPrefix(a, b)
  {
    if HasPrefix(p + a, p + b) {
      forall i | 0 <= i < |b|
        ensures a[i] == b[i]
      {
        assert (p + a)[|p| + i] == (p + b)[|p| + i];
      }
    }
  }

  function Stripped(p: bytes, keys: seq<bytes>): seq<bytes> {
    seq(|keys|, i requires 0 <= i < |keys| => if |p| <= |keys[i]| then keys[i][|p|..] else keys[i])
  }

  lemma StrippedAt(p: bytes, db: Store, keys: seq<bytes>, start: bytes, prefix: bytes, i: nat)
    requires Visits(keys, db, p + start, p + prefix) && i < |keys|
    ensures p + Stripped(p, keys)[i] == keys[i]
  {
    assert keys[i] in keys;
    assert HasPrefix(keys[i], p + prefix);
    assert keys[i][..|p|] == p;
  }

  // The underlying iteration, stripped of the prefix, is the iteration of the view on its own.
  lemma ViewVisits(p: bytes, db: Store, keys: seq<bytes>, start: bytes, prefix: bytes)
    requires Visits(keys, db, p + start, p + prefix)
    ensures Visits(Stripped(p, keys), View(db, p), start, prefix)
  {
    var mine := Stripped(p, keys);
    forall i, j | 0 <= i < j < |mine|
      ensures Less(mine[i], mine[j])
    {
      StrippedAt(p, db, keys, start, prefix, i);
      StrippedAt(p, db, keys, start, prefix, j);
      OrderUnderPrefix(p, mine[i], mine[j]);
    }
    forall k
      ensures k in mine <==> k in View(db, p) && HasPrefix(k, prefix) && !Less(k, start)
    {
      InView(db, p, k);
      OrderUnderPrefix(p, k, start);
      PrefixUnderPrefix(p, k, prefix);
      if k in mine {
        var i :| 0 <= i < |mine| && mine[i] == k;
        StrippedAt(p, db, keys, start, prefix, i);
        assert p + k in keys;
      }
      if p + k in keys {
        var i :| 0 <= i < |keys| && keys[i] == p + k;
        StrippedAt(p, db, keys, start, prefix, i);
        Injective(p, mine[i], k);
      }
    }
  }

  // ---------- The database ----------

  type Hash = bytes -> bytes

  // What New hashes: the prefix, or on another prefix database the parent's prefix followed by it. The
  // new database then sits beside its parent on the parent's database.
  function Name(parent: Option<bytes>, prefix: bytes): bytes {
    if parent.Some? then parent.value + prefix else prefix
  }

  ghost predicate CollisionFree(hash: Hash, names: set<bytes>) {
    forall a, b | a in names && b in names :: |hash(a)| == |hash(b)| && (hash(a) == hash(b) ==> a == b)
  }

  // Parents' prefixes have one length, so children have the same name only if all is the same.
  lemma ChildrenDiffer(p: bytes, q: bytes, a: bytes, b: bytes)
    requires |p| == |q|
    ensures Name(Some(p), a) == Name(Some(q), b) <==> p == q && a == b
  {
    if p == q {
      Injective(p, a, b);
    } else {
      Disjoint(p, q, a, b);
    }
  }

  // Whatever is written through one name is invisible through any other name in use.
  lemma Isolated(hash: Hash, names: set<bytes>, a: bytes, b: bytes, db: Store, ws: seq<Write>)
    requires CollisionFree(hash, names) && a in names && b in names && a != b
    ensures View(ApplyWrites(db, Prefixed(hash(a), ws)), hash(b)) == View(db, hash(b))
    ensures View(ApplyWrites(db, Prefixed(hash(a), ws)), hash(a)) == ApplyWrites(View(db, hash(a)), ws)
  {
    WritesOutsideView(db, hash(a), hash(b), ws);
    WritesInView(db, hash(a), ws);
  }

  class PrefixDB {
    const dbPrefix: bytes
    const db: MemDB
    var closed: bool

    constructor (dbPrefix: bytes, db: MemDB)
      ensures this.dbPrefix == dbPrefix && this.db == db && !closed
    {
      this.dbPrefix, this.db, closed := dbPrefix, db, false;
    }

    // What this database holds.
    ghost function Contents(): Store
      reads this, db
    {
      View(db.db, dbPrefix)
    }

    ghost predicate Open()
      reads this, db
    {
      !closed && !db.closed
    }

    function Prefix(key: bytes): bytes {
      dbPrefix + key
    }

    method Has(key: bytes) returns (r: Result<bool, Error>)
      ensures r == if Open() then Ok(key in Contents()) else Err(Error.Closed)
    {
      if closed {
        return Err(Error.Closed);
      }
      InView(db.db, dbPrefix, key);
      r := db.Has(Prefix(key));
    }

    method Get(key: bytes) returns (r: Result<bytes, Error>)
      ensures r == if !Open() then Err(Error.Closed) else if key in Contents() then Ok(Contents()[key])
              else Err(NotFound)
    {
      if closed {
        return Err(Error.Closed);
      }
      InView(db.db, dbPrefix, key);
      r := db.Get(Prefix(key));
    }

    // A put acts on this database's contents only.
    method Put(key: bytes, value: bytes) returns (ok: bool)
      modifies db`db
      ensures ok == Open() && Contents() == if ok then old(Contents())[key := value] else old(Contents())
      ensures forall q | |q| == |dbPrefix| && q != dbPrefix :: View(db.db, q) == old(View(db.db, q))
    {
      if closed {
        return false;
      }
      ghost var w := Write.Put(key, value);
      WriteInView(db.db, dbPrefix, w);
      Elsewhere(db.db, dbPrefix, w);
      ok := db.Put(Prefix(key), value);
    }

    method Delete(key: bytes) returns (ok: bool)
      modifies db`db
      ensures ok == Open() && Contents() == if ok then old(Contents()) - {key} else old(Contents())
      ensures forall q | |q| == |dbPrefix| && q != dbPrefix :: View(db.db, q) == old(View(db.db, q))
    {
      if closed {
        return false;
      }
      ghost var w := Write.Delete(key);
      WriteInView(db.db, dbPrefix, w);
      Elsewhere(db.db, dbPrefix, w);
      ok := db.Delete(Prefix(key));
    }

    method Close() returns (ok: bool)
      modifies `closed
      ensures closed && ok == !old(closed)
    {
      ok := !closed;
      closed := true;
    }

    method NewIterator(start: bytes, prefix: bytes) returns (it: PrefixIterator)
      ensures fresh(it) && fresh(it.inner) && it.db == this && it.inner.db == db && it.Valid()
      ensures Open() ==> Visits(it.Keys(), Contents(), start, prefix)
      ensures Open() ==> forall e | e in it.Remaining() :: e.key in Contents() && e.value == Contents()[e.key]
    {
      var inner: Iterator;
      if closed {
        inner := new Iterator(db, [], [], true);
      } else {
        inner := db.NewIterator(Prefix(start), Prefix(prefix));
      }
      it := new PrefixIterator(this, inner);
      if Open() {
        ViewVisits(dbPrefix, db.db, inner.Keys(), start, prefix);
        forall e | e in it.Remaining()
          ensures e.key in Contents() && e.value == Contents()[e.key]
        {
          var i :| 0 <= i < |it.Remaining()| && it.Remaining()[i] == e;
          assert inner.Remaining()[i] in inner.Remaining();
          assert inner.Remaining()[i].key == inner.Keys()[i];
          StrippedAt(dbPrefix, db.db, inner.Keys(), start, prefix, i);
          InView(db.db, dbPrefix, e.key);
        }
      }
    }
  }

  lemma Elsewhere(db: Store, p: bytes, w: Write)
    ensures forall q | |q| == |p| && q != p :: View(ApplyWrite(db, PrefixedWrite(p, w)), q) == View(db, q)
  {
    forall q | |q| == |p| && q != p
      ensures View(ApplyWrite(db, PrefixedWrite(p, w)), q) == View(db, q)
    {
      WriteOutsideView(db, p, q, w);
    }
  }

  // ---------- Batches ----------

  lemma WrittenViews(db: Store, p: bytes, ops: seq<Write>)
    ensures View(ApplyWrites(db, Prefixed(p, ops)), p) == ApplyWrites(View(db, p), ops)
    ensures forall q | |q| == |p| && q != p :: View(ApplyWrites(db, Prefixed(p, ops)), q) == View(db, q)
  {
    WritesInView(db, p, ops);
    forall q | |q| == |p| && q != p
      ensures View(ApplyWrites(db, Prefixed(p, ops)), q) == View(db, q)
    {
      WritesOutsideView(db, p, q, ops);
    }
  }

  class PrefixBatch {
    const db: PrefixDB
    // The batch on the underlying database.
    const inner: Batch
    var writes: seq<Write>

    constructor (db: PrefixDB)
      ensures fresh(inner) && this.db == db && inner.db == db.db && Valid() && Operations() == []
    {
      var b := new Batch(db.db);
      this.db, inner, writes := db, b, [];
    }

    // Each queued key starts with the prefix, and the underlying batch has the same operations.
    ghost predicate Valid()
      reads this, inner
    {
      && inner.db == db.db && inner.Valid() && inner.writes == writes
      && forall i | 0 <= i < |writes| :: db.dbPrefix <= writes[i].key
    }

    // The operations as the caller gave them.
    ghost function Operations(): seq<Write>
      reads this, inner
      requires Valid()
    {
      seq(|writes|, i requires 0 <= i < |writes| reads this,
          inner requires Valid() => Unprefixed(db.dbPrefix, writes[i]))
    }

    lemma PrefixedBack()
      requires Valid()
      ensures Prefixed(db.dbPrefix, Operations()) == writes
    {
      forall i | 0 <= i < |writes|
        ensures PrefixedWrite(db.dbPrefix, Unprefixed(db.dbPrefix, writes[i])) == writes[i]
      {
        assert db.dbPrefix + writes[i].key[|db.dbPrefix|..] == writes[i].key;
      }
    }

    method Put(key: bytes, value: bytes)
      requires Valid()
      modifies this, inner
      ensures Valid() && Operations() == old(Operations()) + [Write.Put(key, value)]
    {
      var prefixedKey := db.Prefix(key);
      assert prefixedKey[|db.dbPrefix|..] == key;
      writes := writes + [Write.Put(prefixedKey, value)];
      inner.Put(prefixedKey, value);
    }

    method Delete(key: bytes)
      requires Valid()
      modifies this, inner
      ensures Valid() && Operations() == old(Operations()) + [Write.Delete(key)]
    {
      var prefixedKey := db.Prefix(key);
      assert prefixedKey[|db.dbPrefix|..] == key;
      writes := writes + [Write.Delete(prefixedKey)];
      inner.Delete(prefixedKey);
    }

    // Writing the batch applies its operations, in order, to this prefix and to no other.
    method Flush() returns (ok: bool)
      requires Valid()
      modifies db.db`db
      ensures ok == db.Open() && db.Contents() == if ok then ApplyWrites(old(db.Contents()), Operations())
              else old(db.Contents())
      ensures forall q | |q| == |db.dbPrefix| && q != db.dbPrefix :: View(db.db.db, q) == old(View(db.db.db, q))
    {
      if db.closed {
        return false;
      }
      PrefixedBack();
      WrittenViews(db.db.db, db.dbPrefix, Operations());
      ok := inner.Write();
    }

    method Reset()
      requires Valid()
      modifies this, inner
      ensures Valid() && Operations() == []
    {
      writes := [];
      inner.Reset();
    }

    // Replay gives the operations without the prefix.
    method Replay(target: Batch)
      requires Valid() && target != inner && target.Valid()
      modifies target
      ensures target.Valid() && target.writes == old(target.writes) + Operations()
    {
      ghost var ops := Operations();
      for i := 0 to |writes|
        invariant target.Valid() && target.writes == old(target.writes) + ops[..i]
      {
        ReplayOne(target, writes[i]);
        assert ops[..i + 1] == ops[..i] + [ops[i]];
      }
      assert ops[..|ops|] == ops;
    }

    method ReplayOne(target: Batch, w: Write)
      requires db.dbPrefix <= w.key && target.Valid()
      modifies target
      ensures target.Valid() && target.writes == old(target.writes) + [Unprefixed(db.dbPrefix, w)]
    {
      var key := w.key[|db.dbPrefix|..];
      if w.Delete? {
        target.Delete(key);
      } else {
        target.Put(key, w.value);
      }
    }
  }

  function Unprefixed(p: bytes, w: Write): Write
    requires p <= w.key
  {
    if w.Put? then Write.Put(w.key[|p|..], w.value) else Write.Delete(w.key[|p|..])
  }

  // ---------- Iterators ----------

  function StrippedEntry(p: bytes, e: Entry<bytes, bytes>): Entry<bytes, bytes> {
    Entry(if |p| <= |e.key| then e.key[|p|..] else e.key, e.value)
  }

  function StrippedEntries(p: bytes, es: seq<Entry<bytes, bytes>>): seq<Entry<bytes, bytes>> {
    seq(|es|, i requires 0 <= i < |es| => StrippedEntry(p, es[i]))
  }

  class PrefixIterator {
    const db: PrefixDB
    const inner: Iterator
    var key: bytes
    var value: bytes
    var failed: bool

    constructor (db: PrefixDB, inner: Iterator)
      requires inner.Valid()
      ensures this.db == db && this.inner == inner && !failed && Valid()
    {
      this.db, this.inner, key, value, failed := db, inner, [], [], false;
    }

    ghost predicate Valid()
      reads inner
    {
      inner.Valid()
    }

    ghost function Keys(): seq<bytes>
      reads inner
    {
      Stripped(db.dbPrefix, inner.Keys())
    }

    ghost function Remaining(): seq<Entry<bytes, bytes>>
      requires Valid()
      reads inner
    {
      StrippedEntries(db.dbPrefix, inner.Remaining())
    }

    // Next moves to the first remaining entry, if there is one and both databases are still open.
    method Next() returns (more: bool)
      requires Valid() && inner.db == db.db
      modifies this, inner
      ensures Valid() && (more <==> db.Open() && old(Remaining()) != [])
      ensures more ==> Entry(key, value) == old(Remaining())[0] && Remaining() == old(Remaining())[1..]
      ensures db.closed ==> failed
    {
      if db.closed {
        key, value, failed := [], [], true;
        return false;
      }
      ghost var before := inner.Remaining();
      more := inner.Next();
      if more {
        key := inner.keys[0];
        if |key| >= |db.dbPrefix| {
          key := key[|db.dbPrefix|..];
        }
        value := inner.values[0];
        assert StrippedEntries(db.dbPrefix, before)[1..] == StrippedEntries(db.dbPrefix, before[1..]);
      } else {
        key, value := [], [];
      }
    }
  }
}
