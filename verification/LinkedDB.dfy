/**
 database/linkeddb/linkeddb.go: the persistent linked list with its node cache, head-key cache and
 pending batch, and the iterator.

 The underlying database is a store whose reads and batch writes may report an error; a failed
 write has no effect. The node cache is the LRU cache of module Lru, by its contents.
 */
module LinkedDB {
  import opened Wrappers
  import opened Bytes
  import opened Database
  import opened Entries
  import opened LinkedList
  import Lru

  datatype Error = NotFound | Failed

  // What a cached node, or nil for an absent one, claims about the store.
  ghost predicate Agrees(f: Format, db: Store, key: Key, n: Option<Node>) {
    if n.None? then NodeKey(key) !in db else Stored(f, db, key, n.value)
  }

  ghost predicate SameAt(a: Store, b: Store, k: bytes) {
    (k in a <==> k in b) && (k in a ==> a[k] == b[k])
  }

  ghost predicate CacheAgrees(f: Format, db: Store, cache: seq<Entry<Key, Option<Node>>>) {
    forall e | e in cache :: Agrees(f, db, e.key, e.value)
  }

  lemma {:induction false} WithoutMembers<K, V>(es: seq<Entry<K, V>>, k: K, e: Entry<K, V>)
    requires e in Without(es, k)
    ensures e in es && e.key != k
  {
    if es != [] && e in Without(es[..|es| - 1], k) {
      WithoutMembers(es[..|es| - 1], k, e);
    }
  }

  // After a cache put, every other entry was there before, under another key.
  lemma CachePut<K, V>(es: seq<Entry<K, V>>, size: int, k: K, v: V, e: Entry<K, V>)
    requires e in Lru.AfterPut(es, size, k, v)
    ensures e == Entry(k, v) || (e in es && e.key != k)
  {
    var kept := Lru.Newest(es, Lru.SizeOf(size));
    assert e in Without(kept, k) + [Entry(k, v)];
    if e != Entry(k, v) {
      WithoutMembers(kept, k, e);
    }
  }

  lemma {:induction false} ValueMember<K, V>(es: seq<Entry<K, V>>, k: K)
    requires ValueOf(es, k).Some?
    ensures Entry(k, ValueOf(es, k).value) in es
  {
    if es != [] && es[|es| - 1].key != k {
      ValueMember(es[..|es| - 1], k);
    }
  }

  lemma CacheGet<K, V>(es: seq<Entry<K, V>>, size: int, k: K, e: Entry<K, V>)
    requires e in Lru.AfterGet(es, size, k)
    ensures e in es
  {
    var kept := Lru.Newest(es, Lru.SizeOf(size));
    if ValueOf(kept, k).Some? {
      ValueMember(kept, k);
      if e in Without(kept, k) {
        WithoutMembers(kept, k, e);
      }
    }
  }

  // The pending nodes are the nodes that differ.
  ghost predicate NodesPending(f: Format, db: Store, staged: Store, updated: map<Key, Option<Node>>) {
    && (forall key | key in updated :: Agrees(f, staged, key, updated[key]))
    && (forall key | key !in updated :: SameAt(db, staged, NodeKey(key)))
  }

  // The pending head key, if there is one, is the one that differs.
  ghost predicate HeadPending(db: Store, staged: Store, isUpdated: bool, exists_: bool, key: bytes) {
    if isUpdated then if exists_ then HEAD_KEY in staged && staged[HEAD_KEY] == key else HEAD_KEY !in staged
    else SameAt(db, staged, HEAD_KEY)
  }

  lemma SameThrough(a: Store, b: Store, c: Store, k: bytes)
    requires SameAt(a, b, k) && SameAt(b, c, k)
    ensures SameAt(a, c, k)
  {
  }

  lemma AgreesToo(f: Format, a: Store, b: Store, key: Key, n: Option<Node>)
    requires Agrees(f, a, key, n) && SameAt(a, b, NodeKey(key))
    ensures Agrees(f, b, key, n)
  {
  }

  lemma OneMorePending(f: Format, db: Store, staged: Store, staged': Store, updated: map<Key, Option<Node>>, key: Key,
                       n: Option<Node>)
    requires NodesPending(f, db, staged, updated) && Agrees(f, staged', key, n)
    requires forall other | other != key :: SameAt(staged, staged', NodeKey(other))
    ensures NodesPending(f, db, staged', updated[key := n])
  {
    forall other | other in updated && other != key
      ensures Agrees(f, staged', other, updated[other])
    {
      AgreesToo(f, staged, staged', other, updated[other]);
    }
    forall other | other !in updated && other != key
      ensures SameAt(db, staged', NodeKey(other))
    {
      SameThrough(db, staged, staged', NodeKey(other));
    }
  }

  lemma SameHeadPending(db: Store, staged: Store, staged': Store, isUpdated: bool, exists_: bool, key: bytes)
    requires HeadPending(db, staged, isUpdated, exists_, key) && SameAt(staged, staged', HEAD_KEY)
    ensures HeadPending(db, staged', isUpdated, exists_, key)
  {
  }

  lemma SamePending(f: Format, db: Store, staged: Store, staged': Store, updated: map<Key, Option<Node>>)
    requires NodesPending(f, db, staged, updated) && forall key :: SameAt(staged, staged', NodeKey(key))
    ensures NodesPending(f, db, staged', updated)
  {
    forall key | key in updated
      ensures Agrees(f, staged', key, updated[key])
    {
      assert SameAt(staged, staged', NodeKey(key));
    }
  }

  // The pending head key and nodes describe how the staged store differs.
  ghost predicate Pending(f: Format, db: Store, staged: Store, updated: map<Key, Option<Node>>,
                          isUpdated: bool, exists_: bool, key: bytes) {
    NodesPending(f, db, staged, updated) && HeadPending(db, staged, isUpdated, exists_, key)
  }

  lemma NodeQueued(f: Format, db: Store, staged: Store, staged': Store, updated: map<Key, Option<Node>>,
                   isUpdated: bool, exists_: bool, headKey: bytes, key: Key, n: Option<Node>, b: bytes)
    requires Pending(f, db, staged, updated, isUpdated, exists_, headKey)
    requires if n.Some? then staged' == staged[NodeKey(key) := b] && f.decode(b) == n
             else staged' == staged - {NodeKey(key)}
    ensures Pending(f, db, staged', updated[key := n], isUpdated, exists_, headKey)
  {
    NodeWriteKeepsOthers(staged, staged', key);
    OneMorePending(f, db, staged, staged', updated, key, n);
    SameHeadPending(db, staged, staged', isUpdated, exists_, headKey);
  }

  lemma HeadQueued(f: Format, db: Store, staged: Store, staged': Store, updated: map<Key, Option<Node>>,
                   exists_: bool, key: bytes)
    requires NodesPending(f, db, staged, updated)
    requires staged' == if exists_ then staged[HEAD_KEY := key] else staged - {HEAD_KEY}
    ensures Pending(f, db, staged', updated, true, exists_, key)
  {
    HeadWriteKeepsNodes(staged, staged');
    SamePending(f, db, staged, staged', updated);
  }

  // Every node of the list can be marshalled.
  ghost predicate Encodes(f: Format, l: List) {
    forall i {:trigger NodeAt(l, i)} | 0 <= i < |l| :: f.encode(NodeAt(l, i)).Some?
  }

  class LinkedDB {
    const format: Format
    const cacheSize: int
    // Whether the underlying database may report errors.
    const flaky: bool

    var headKeyIsSynced: bool
    var headKeyExists: bool
    var headKeyIsUpdated: bool
    var updatedHeadKeyExists: bool
    var headKey: bytes
    var updatedHeadKey: bytes
    var nodeCache: seq<Entry<Key, Option<Node>>>
    var updatedNodes: map<Key, Option<Node>>
    var db: Store
    var batch: seq<Write>

    // The list the store represents.
    ghost var list: List

    // A list over a database that already holds one, with nothing cached.
    constructor (format: Format, cacheSize: int, flaky: bool, db: Store, ghost list: List)
      requires RoundTrips(format) && Represents(format, db, list)
      ensures Valid() && this.list == list && this.db == db && this.format == format && this.flaky == flaky
    {
      this.format, this.cacheSize, this.flaky := format, cacheSize, flaky;
      headKeyIsSynced, headKeyExists, headKeyIsUpdated, updatedHeadKeyExists := false, false, false, false;
      headKey, updatedHeadKey := [], [];
      nodeCache, updatedNodes, this.db, batch := [], map[], db, [];
      this.list := list;
    }

    ghost predicate HeadCoherent()
      reads this
    {
      headKeyIsSynced ==> if headKeyExists then HEAD_KEY in db && db[HEAD_KEY] == headKey else HEAD_KEY !in db
    }

    // Every cached node, present or absent, and the synced head key are what the store holds.
    ghost predicate Coherent()
      reads this
    {
      HeadCoherent() && CacheAgrees(format, db, nodeCache)
    }

    ghost predicate Valid()
      reads this
    {
      RoundTrips(format) && Represents(format, db, list) && Coherent()
    }

    // The store as the pending batch would leave it.
    ghost function Staged(): Store
      reads this
    {
      ApplyWrites(db, batch)
    }

    // The pending head key and nodes describe what the pending batch does.
    ghost predicate PendingOk()
      reads this
    {
      Pending(format, db, Staged(), updatedNodes, headKeyIsUpdated, updatedHeadKeyExists, updatedHeadKey)
    }

    // Whether this access to the underlying database fails.
    method Faults() returns (failed: bool)
      ensures failed ==> flaky
    {
      if * {
        failed := flaky;
      } else {
        failed := false;
      }
    }

    method ReadStore(key: bytes) returns (r: Result<bytes, Error>)
      ensures r.Ok? ==> key in db && r.value == db[key]
      ensures r == Err(NotFound) ==> key !in db
      ensures !flaky ==> r != Err(Failed)
    {
      var failed := Faults();
      if failed {
        return Err(Failed);
      }
      return if key in db then Ok(db[key]) else Err(NotFound);
    }

    method GetHeadKey() returns (r: Result<Key, Error>)
      requires Coherent()
      modifies `headKeyIsSynced, `headKeyExists, `headKey
      ensures Coherent()
      ensures r.Ok? ==> HEAD_KEY in db && r.value == db[HEAD_KEY]
      ensures r == Err(NotFound) ==> HEAD_KEY !in db
      ensures !flaky ==> r != Err(Failed)
    {
      if headKeyIsSynced {
        return if headKeyExists then Ok(headKey) else Err(NotFound);
      }
      r := ReadStore(HEAD_KEY);
      if r.Ok? {
        headKeyIsSynced, headKeyExists, headKey := true, true, r.value;
      } else if r.error == NotFound {
        headKeyIsSynced, headKeyExists := true, false;
      }
    }

    method GetNode(key: Key) returns (r: Result<Node, Error>)
      requires Coherent()
      modifies `nodeCache
      ensures Coherent()
      ensures r.Ok? ==> Stored(format, db, key, r.value)
      ensures r == Err(NotFound) ==> NodeKey(key) !in db
      ensures !flaky && (NodeKey(key) in db ==> format.decode(db[NodeKey(key)]).Some?) ==> r != Err(Failed)
    {
      var cached := ValueOf(Lru.Newest(nodeCache, Lru.SizeOf(cacheSize)), key);
      ghost var before := nodeCache;
      nodeCache := Lru.AfterGet(nodeCache, cacheSize, key);
      forall e | e in nodeCache ensures Agrees(format, db, e.key, e.value) { CacheGet(before, cacheSize, key, e); }
      if cached.Some? {
        ValueMember(Lru.Newest(before, Lru.SizeOf(cacheSize)), key);
        assert Entry(key, cached.value) in before;
        return if cached.value.None? then Err(NotFound) else Ok(cached.value.value);
      }
      var nodeBytes := ReadStore(NodeKey(key));
      if nodeBytes.Err? {
        if nodeBytes.error.NotFound? {
          Cache(key, None);
        }
        return Err(nodeBytes.error);
      }
      var n := format.decode(nodeBytes.value);
      if n.None? {
        return Err(Failed);
      }
      Cache(key, n);
      return Ok(n.value);
    }

    method Cache(key: Key, n: Option<Node>)
      requires Coherent() && Agrees(format, db, key, n)
      modifies `nodeCache
      ensures Coherent()
    {
      ghost var before := nodeCache;
      nodeCache := Lru.AfterPut(nodeCache, cacheSize, key, n);
      forall e | e in nodeCache ensures Agrees(format, db, e.key, e.value) { CachePut(before, cacheSize, key, n, e); }
    }

    method ResetBatch()
      modifies `headKeyIsUpdated, `updatedNodes, `batch
      ensures PendingOk() && Staged() == db
    {
      headKeyIsUpdated, updatedNodes, batch := false, map[], [];
    }

    method Queue(w: Write)
      modifies `batch
      ensures Staged() == ApplyWrite(old(Staged()), w)
    {
      ghost var before := batch;
      batch := batch + [w];
      assert batch[..|batch| - 1] == before;
    }

    method PutHeadKey(key: Key)
      requires PendingOk()
      modifies `headKeyIsUpdated, `updatedHeadKeyExists, `updatedHeadKey, `batch
      ensures PendingOk() && Staged() == old(Staged())[HEAD_KEY := key]
    {
      headKeyIsUpdated, updatedHeadKeyExists, updatedHeadKey := true, true, key;
      Queue(Write.Put(HEAD_KEY, key));
      HeadQueued(format, db, old(Staged()), Staged(), updatedNodes, true, key);
    }

    method DeleteHeadKey()
      requires PendingOk()
      modifies `headKeyIsUpdated, `updatedHeadKeyExists, `batch
      ensures PendingOk() && Staged() == old(Staged()) - {HEAD_KEY}
    {
      headKeyIsUpdated, updatedHeadKeyExists := true, false;
      Queue(Write.Delete(HEAD_KEY));
      HeadQueued(format, db, old(Staged()), Staged(), updatedNodes, false, updatedHeadKey);
    }

    method PutNode(key: Key, n: Node) returns (ok: bool)
      requires RoundTrips(format) && PendingOk()
      modifies `updatedNodes, `batch
      ensures ok <==> format.encode(n).Some?
      ensures ok ==> PendingOk() && Staged() == old(Staged())[NodeKey(key) := format.encode(n).value]
    {
      updatedNodes := updatedNodes[key := Some(n)];
      var nodeBytes := format.encode(n);
      if nodeBytes.None? {
        return false;
      }
      Queue(Write.Put(NodeKey(key), nodeBytes.value));
      NodeQueued(format, db, old(Staged()), Staged(), old(updatedNodes),
                 headKeyIsUpdated, updatedHeadKeyExists, updatedHeadKey, key, Some(n), nodeBytes.value);
      return true;
    }

    method DeleteNode(key: Key)
      requires PendingOk()
      modifies `updatedNodes, `batch
      ensures PendingOk() && Staged() == old(Staged()) - {NodeKey(key)}
    {
      updatedNodes := updatedNodes[key := None];
      Queue(Write.Delete(NodeKey(key)));
      NodeQueued(format, db, old(Staged()), Staged(), old(updatedNodes),
                 headKeyIsUpdated, updatedHeadKeyExists, updatedHeadKey, key, None, []);
    }

    // Writes the batch; only then the pending head key and nodes become the cached ones.
    method WriteBatch() returns (ok: bool)
      requires Coherent() && PendingOk()
      modifies `db, `headKeyIsSynced, `headKeyExists, `headKey, `nodeCache
      ensures Coherent()
      ensures ok ==> db == old(Staged())
      ensures !ok ==> db == old(db) && flaky
    {
      var failed := Faults();
      if failed {
        return false;
      }
      ghost var was := db;
      db := ApplyWrites(db, batch);
      if headKeyIsUpdated {
        headKeyIsSynced, headKeyExists, headKey := true, updatedHeadKeyExists, updatedHeadKey;
      }
      var left := updatedNodes.Keys;
      while left != {}
        modifies `nodeCache
        invariant left <= updatedNodes.Keys
        invariant forall e | e in nodeCache :: e.key in left || Agrees(format, db, e.key, e.value)
      {
        var key :| key in left;
        ghost var before := nodeCache;
        nodeCache := Lru.AfterPut(nodeCache, cacheSize, key, updatedNodes[key]);
        left := left - {key};
        forall e | e in nodeCache
          ensures e.key in left || Agrees(format, db, e.key, e.value)
        {
          CachePut(before, cacheSize, key, updatedNodes[key], e);
        }
      }
      return true;
    }

    // Writes a batch that stages the list l'.
    method Install(ghost l': List) returns (ok: bool)
      requires Valid() && PendingOk() && Represents(format, Staged(), l')
      modifies this
      ensures Valid()
      ensures ok ==> list == l'
      ensures !ok ==> list == old(list) && db == old(db) && flaky
    {
      ok := WriteBatch();
      if ok {
        list := l';
      }
    }

    // The node read for a key is the key's place in the list.
    lemma NodeIsAt(key: Key, n: Node) returns (i: nat)
      requires Represents(format, db, list) && Stored(format, db, key, n)
      ensures i < |list| && list[i].key == key && n == NodeAt(list, i)
    {
      HasNode(format, db, list, key);
      i := KeyFound(list, key);
      assert Stored(format, db, list[i].key, NodeAt(list, i));
    }

    lemma NodeDecodes(key: Key)
      requires Represents(format, db, list)
      ensures NodeKey(key) in db ==> format.decode(db[NodeKey(key)]).Some?
    {
      HasNode(format, db, list, key);
      if Has(list, key) {
        var at := KeyFound(list, key);
        assert Stored(format, db, list[at].key, NodeAt(list, at));
      }
    }

    method PutExisting(key: Key, value: bytes, n: Node) returns (ok: bool)
      requires Valid() && PendingOk() && Staged() == db && Stored(format, db, key, n)
      modifies this
      ensures Valid()
      ensures ok ==> list == ListPut(old(list), key, value)
      ensures !ok ==> list == old(list) && db == old(db)
      ensures !flaky && Encodes(format, ListPut(old(list), key, value)) ==> ok
    {
      ghost var i := NodeIsAt(key, n);
      UpdatedNodes(list, i, value);
      assert n.(value := value) == NodeAt(ListPut(list, key, value), i);
      ok := PutNode(key, n.(value := value));
      if !ok {
        return false;
      }
      PutInPlace(format, db, list, i, value, format.encode(n.(value := value)).value);
      ok := Install(ListPut(list, key, value));
    }

    // The node of the head of the list, if there is one.
    method HeadNode() returns (ok: bool, head: Option<(Key, Node)>)
      requires Valid()
      modifies `headKeyIsSynced, `headKeyExists, `headKey, `nodeCache
      ensures Valid()
      ensures ok ==> head == if list == [] then None else Some((list[0].key, NodeAt(list, 0)))
      ensures !flaky ==> ok
    {
      var key := GetHeadKey();
      if key.Err? {
        return key.error.NotFound?, None;
      }
      assert Stored(format, db, list[0].key, NodeAt(list, 0));
      var n := GetNode(key.value);
      if n.Err? {
        assert n.error.NotFound? || n.error.Failed?;
        return false, None;
      }
      return true, Some((key.value, n.value));
    }

    // Makes the old head, if any, point back to the new one, and returns the new head's node.
    method LinkOldHead(key: Key, value: bytes) returns (ok: bool, newHead: Node, ghost oldHeadBytes: bytes)
      requires Valid() && PendingOk() && Staged() == db
      modifies `headKeyIsSynced, `headKeyExists, `headKey, `nodeCache, `updatedNodes, `batch
      ensures Valid()
      ensures ok ==> var l' := [Entry(key, value)] + list;
                     && PendingOk() && newHead == NodeAt(l', 0)
                     && (list != [] ==> format.decode(oldHeadBytes) == Some(NodeAt(l', 1)))
                     && Staged() == if list == [] then db else db[NodeKey(list[0].key) := oldHeadBytes]
      ensures !flaky && Encodes(format, [Entry(key, value)] + list) ==> ok
    {
      newHead, oldHeadBytes := Node(value, false, [], false, []), [];
      var head;
      ok, head := HeadNode();
      if !ok || head.None? {
        return;
      }
      var relinked := head.value.1.(hasPrevious := true, previous := key);
      assert relinked == NodeAt([Entry(key, value)] + list, 1);
      ok := PutNode(head.value.0, relinked);
      if ok {
        oldHeadBytes := format.encode(relinked).value;
        newHead := newHead.(hasNext := true, next := head.value.0);
      }
    }

    // Queues what prepends the entry.
    method QueueNew(key: Key, value: bytes) returns (ok: bool)
      requires Valid() && PendingOk() && Staged() == db && !Has(list, key)
      modifies `headKeyIsSynced, `headKeyExists, `headKey, `nodeCache, `updatedNodes, `batch,
               `headKeyIsUpdated, `updatedHeadKeyExists, `updatedHeadKey
      ensures Valid()
      ensures ok ==> PendingOk() && Represents(format, Staged(), ListPut(list, key, value))
      ensures !flaky && Encodes(format, ListPut(list, key, value)) ==> ok
    {
      var newHead: Node;
      ghost var oldHeadBytes: bytes;
      ok, newHead, oldHeadBytes := LinkOldHead(key, value);
      if !ok {
        return false;
      }
      assert newHead == NodeAt([Entry(key, value)] + list, 0);
      ok := QueueHead(key, newHead);
      if ok {
        PutAtFront(format, db, list, key, value, oldHeadBytes, format.encode(newHead).value);
      }
    }

    method QueueHead(key: Key, n: Node) returns (ok: bool)
      requires RoundTrips(format) && PendingOk()
      modifies `updatedNodes, `batch, `headKeyIsUpdated, `updatedHeadKeyExists, `updatedHeadKey
      ensures ok <==> format.encode(n).Some?
      ensures ok ==> PendingOk() && Staged() == old(Staged())[NodeKey(key) := format.encode(n).value][HEAD_KEY := key]
    {
      ok := PutNode(key, n);
      if ok {
        PutHeadKey(key);
      }
    }

    method PutNew(key: Key, value: bytes) returns (ok: bool)
      requires Valid() && PendingOk() && Staged() == db && !Has(list, key)
      modifies this
      ensures Valid()
      ensures ok ==> list == ListPut(old(list), key, value)
      ensures !ok ==> list == old(list) && db == old(db)
      ensures !flaky && Encodes(format, ListPut(old(list), key, value)) ==> ok
    {
      ok := QueueNew(key, value);
      if ok {
        ok := Install(ListPut(list, key, value));
      }
    }

    // Put updates the entry in place or prepends it; a failed put changes nothing. It fails only if the
    // database does or a node of the new list cannot be marshalled.
    method Put(key: Key, value: bytes) returns (ok: bool)
      requires Valid()
      modifies this
      ensures Valid()
      ensures ok ==> list == ListPut(old(list), key, value)
      ensures !ok ==> list == old(list) && db == old(db)
      ensures !flaky && Encodes(format, ListPut(old(list), key, value)) ==> ok
    {
      ResetBatch();
      NodeDecodes(key);
      var existing := GetNode(key);
      HasNode(format, db, list, key);
      if existing.Ok? {
        ok := PutExisting(key, value, existing.value);
      } else if existing.error.NotFound? {
        ok := PutNew(key, value);
      } else {
        ok := false;
      }
    }

    // Queues the neighbour's node with new links.
    method Relink(key: Key, ghost i: nat, ghost target: Node, hasNext: Option<(bool, Key)>,
                  hasPrevious: Option<(bool, Key)>)
      returns (ok: bool, ghost written: bytes)
      requires Valid() && PendingOk() && i < |list| && list[i].key == key
      requires var n := NodeAt(list, i);
               var n' := if hasNext.Some? then n.(hasNext := hasNext.value.0, next := hasNext.value.1) else n;
               target == if hasPrevious.Some? then
                   n'.(hasPrevious := hasPrevious.value.0, previous := hasPrevious.value.1) else n'
      modifies `nodeCache, `updatedNodes, `batch
      ensures Valid()
      ensures ok ==> PendingOk() && Staged() == old(Staged())[NodeKey(key) := written]
      ensures ok ==> format.decode(written) == Some(target)
      ensures !flaky && format.encode(target).Some? ==> ok
    {
      assert Stored(format, db, list[i].key, NodeAt(list, i));
      var read := GetNode(key);
      written := [];
      if read.Err? {
        assert read.error.NotFound? || read.error.Failed?;
        ok := false;
        return;
      }
      ghost var at := NodeIsAt(key, read.value);
      var n := read.value;
      if hasNext.Some? {
        n := n.(hasNext := hasNext.value.0, next := hasNext.value.1);
      }
      if hasPrevious.Some? {
        n := n.(hasPrevious := hasPrevious.value.0, previous := hasPrevious.value.1);
      }
      ok := PutNode(key, n);
      if ok {
        written := format.encode(n).value;
      }
    }

    // The deleted node has a predecessor: link it with the successor, if any.
    method LinkPast(n: Node, ghost i: nat) returns (ok: bool, ghost previous: bytes, ghost next: bytes)
      requires Valid() && PendingOk() && 0 < i < |list| && n == NodeAt(list, i) &&
               Staged() == db - {NodeKey(list[i].key)}
      modifies `nodeCache, `updatedNodes, `batch
      ensures Valid()
      ensures ok ==> var l' := list[..i] + list[i + 1..];
                     && PendingOk() && Staged() == RemovedStore(db, list, i, previous, next)
                     && format.decode(previous) == Some(NodeAt(l', i - 1))
                     && (i + 1 < |list| ==> format.decode(next) == Some(NodeAt(l', i)))
      ensures !flaky && Encodes(format, list[..i] + list[i + 1..]) ==> ok
    {
      LinksPast(list, i);
      ghost var l' := list[..i] + list[i + 1..];
      next := [];
      ok, previous := Relink(n.previous, i - 1, NodeAt(l', i - 1), Some((n.hasNext, n.next)), None);
      if ok && n.hasNext {
        ok, next := Relink(n.next, i + 1, NodeAt(l', i), None, Some((true, n.previous)));
      }
    }

    // The deleted node is the head: the next node, if any, becomes the head.
    method LinkHead(n: Node) returns (ok: bool, ghost next: bytes)
      requires Valid() && PendingOk() && list != [] && n == NodeAt(list, 0) && Staged() == db - {NodeKey(list[0].key)}
      modifies `nodeCache, `updatedNodes, `batch, `headKeyIsUpdated, `updatedHeadKeyExists, `updatedHeadKey
      ensures Valid()
      ensures ok ==> var l' := list[..0] + list[1..];
                     && PendingOk() && Staged() == RemovedStore(db, list, 0, [], next)
                     && (1 < |list| ==> format.decode(next) == Some(NodeAt(l', 0)))
      ensures !flaky && Encodes(format, list[..0] + list[1..]) ==> ok
    {
      next := [];
      if !n.hasNext {
        DeleteHeadKey();
        ok := true;
      } else {
        ok, next := Behead(n.next);
      }
    }

    // The second node becomes the head.
    method Behead(second: Key) returns (ok: bool, ghost next: bytes)
      requires Valid() && PendingOk() && |list| > 1 && second == list[1].key
      modifies `nodeCache, `updatedNodes, `batch, `headKeyIsUpdated, `updatedHeadKeyExists, `updatedHeadKey
      ensures Valid()
      ensures ok ==> PendingOk() && Staged() == old(Staged())[HEAD_KEY := second][NodeKey(second) := next]
      ensures ok ==> format.decode(next) == Some(NodeAt(list[..0] + list[1..], 0))
      ensures !flaky && Encodes(format, list[..0] + list[1..]) ==> ok
    {
      LinksPast(list, 0);
      PutHeadKey(second);
      ok, next := Relink(second, 1, NodeAt(list[..0] + list[1..], 0), None, Some((false, [])));
    }

    // Queues what unlinks the node.
    method QueueDelete(key: Key, n: Node) returns (ok: bool)
      requires Valid() && Stored(format, db, key, n)
      modifies `nodeCache, `updatedNodes, `batch, `headKeyIsUpdated, `updatedHeadKeyExists, `updatedHeadKey
      ensures Valid()
      ensures ok ==> PendingOk() && Represents(format, Staged(), ListDelete(list, key))
      ensures !flaky && Encodes(format, ListDelete(list, key)) ==> ok
    {
      ghost var i := NodeIsAt(key, n);
      WithoutAt(list, i);
      ResetBatch();
      DeleteNode(key);
      ghost var previous, next: bytes := [], [];
      if n.hasPrevious {
        ok, previous, next := LinkPast(n, i);
      } else {
        ok, next := LinkHead(n);
      }
      if ok {
        RemoveFromStore(format, db, list, i, previous, next);
      }
    }

    method DeleteFound(key: Key, n: Node) returns (ok: bool)
      requires Valid() && Stored(format, db, key, n)
      modifies this
      ensures Valid()
      ensures ok ==> list == ListDelete(old(list), key)
      ensures !ok ==> list == old(list) && db == old(db)
      ensures !flaky && Encodes(format, ListDelete(old(list), key)) ==> ok
    {
      ok := QueueDelete(key, n);
      if ok {
        ok := Install(ListDelete(list, key));
      }
    }

    // Delete removes the entry; deleting an absent key does nothing and a failed delete changes nothing.
    // It fails only if the database does or a node of the new list cannot be marshalled.
    method Delete(key: Key) returns (ok: bool)
      requires Valid()
      modifies this
      ensures Valid()
      ensures ok ==> list == ListDelete(old(list), key)
      ensures !ok ==> list == old(list) && db == old(db)
      ensures !flaky && Encodes(format, ListDelete(old(list), key)) ==> ok
    {
      NodeDecodes(key);
      var current := GetNode(key);
      HasNode(format, db, list, key);
      WithoutDistinct(list, key);
      if current.Err? {
        return current.error.NotFound?;
      }
      ok := DeleteFound(key, current.value);
    }

    method HasKey(key: Key) returns (r: Result<bool, Error>)
      requires Valid()
      ensures r.Ok? ==> (r.value <==> Has(list, key))
      ensures !flaky ==> r.Ok?
    {
      HasNode(format, db, list, key);
      var failed := Faults();
      return if failed then Err(Failed) else Ok(NodeKey(key) in db);
    }

    // A cached read agrees with the store.
    method Get(key: Key) returns (r: Result<bytes, Error>)
      requires Valid()
      modifies `nodeCache
      ensures Valid()
      ensures r.Ok? ==> ValueOf(list, key) == Some(r.value)
      ensures r == Err(NotFound) ==> !Has(list, key)
      ensures !flaky ==> r != Err(Failed)
    {
      HasNode(format, db, list, key);
      NodeDecodes(key);
      var n := GetNode(key);
      if n.Err? {
        return Err(n.error);
      }
      ghost var i := NodeIsAt(key, n.value);
      WithoutAt(list, i);
      return Ok(n.value.value);
    }

    method Head() returns (r: Result<Entry<Key, bytes>, Error>)
      requires Valid()
      modifies `headKeyIsSynced, `headKeyExists, `headKey, `nodeCache
      ensures Valid()
      ensures r.Ok? ==> list != [] && r.value == list[0]
      ensures r == Err(NotFound) ==> list == []
      ensures !flaky ==> r != Err(Failed)
    {
      var head := GetHeadKey();
      if head.Err? {
        return Err(head.error);
      }
      assert Stored(format, db, list[0].key, NodeAt(list, 0));
      var n := GetNode(head.value);
      if n.Err? {
        return Err(n.error);
      }
      return Ok(Entry(head.value, n.value.value));
    }
  }

  // ---------- Iteration ----------

  ghost function At(l: List, key: Key): (i: nat)
    requires Has(l, key)
    ensures i < |l| && l[i].key == key
  {
    var i :| 0 <= i < |l| && l[i].key == key; i
  }

  lemma AtIs(l: List, i: nat)
    requires Distinct(l) && i < |l|
    ensures Has(l, l[i].key) && At(l, l[i].key) == i
  {
  }

  // Where an iteration that is given `start` begins: at that key, or at the head if it is absent.
  ghost function From(l: List, start: Key): List {
    if Has(l, start) then l[At(l, start)..] else l
  }

  class Iterator {
    const ldb: LinkedDB
    var initialized: bool
    var exhausted: bool
    var key: Key
    var value: bytes
    var nextKey: Key
    var failed: bool

    // NewIteratorWithStart: if the lookup of start fails, iteration begins at the head.
    constructor WithStart(ldb: LinkedDB, start: Key)
      requires ldb.Valid()
      ensures Valid() && this.ldb == ldb && !failed
      ensures Remaining() == From(ldb.list, start) || (ldb.flaky && Remaining() == ldb.list)
    {
      var has := ldb.HasKey(start);
      this.ldb := ldb;
      initialized := has.Ok? && has.value;
      nextKey := start;
      exhausted, failed, key, value := false, false, [], [];
    }

    ghost predicate Valid()
      reads this, ldb
    {
      ldb.Valid() && (initialized && !exhausted ==> Has(ldb.list, nextKey)) && (exhausted ==> initialized)
    }

    // The entries still to come.
    ghost function Remaining(): List
      requires Valid()
      reads this, ldb
    {
      if exhausted then [] else if !initialized then ldb.list else ldb.list[At(ldb.list, nextKey)..]
    }

    method Stop(error: Error) returns (more: bool)
      modifies this
      ensures !more && exhausted && initialized == old(initialized) && (failed <==> old(failed) || error == Failed)
    {
      exhausted, key, value := true, [], [];
      failed := failed || error.Failed?;
      return false;
    }

    // Next yields the first remaining entry; it ends early only on an error.
    method Next() returns (more: bool)
      requires Valid()
      modifies this, ldb`headKeyIsSynced, ldb`headKeyExists, ldb`headKey, ldb`nodeCache
      ensures Valid() && initialized && (failed && !old(failed) ==> ldb.flaky)
      ensures more ==> old(Remaining()) != [] && Entry(key, value) == old(Remaining())[0]
      ensures more ==> Remaining() == old(Remaining())[1..]
      ensures more ==> failed == old(failed)
      ensures !more ==> Remaining() == [] && (old(Remaining()) != [] ==> failed)
    {
      if exhausted {
        key, value := [], [];
        return false;
      }
      if !initialized {
        initialized := true;
        var head := ldb.GetHeadKey();
        if head.Err? {
          more := Stop(head.error);
          return;
        }
        nextKey := head.value;
        AtIs(ldb.list, 0);
      }
      more := Yield();
    }

    // Reads the node of the next key.
    method Yield() returns (more: bool)
      requires Valid() && initialized && !exhausted
      modifies this, ldb`nodeCache
      ensures Valid() && initialized && (failed && !old(failed) ==> ldb.flaky)
      ensures more ==> old(Remaining()) != [] && Entry(key, value) == old(Remaining())[0]
      ensures more ==> Remaining() == old(Remaining())[1..]
      ensures more ==> failed == old(failed)
      ensures !more ==> Remaining() == [] && failed
    {
      ghost var i := At(ldb.list, nextKey);
      assert Stored(ldb.format, ldb.db, ldb.list[i].key, NodeAt(ldb.list, i));
      var next := ldb.GetNode(nextKey);
      if next.Err? {
        more := Stop(next.error);
        return;
      }
      key, value, nextKey := nextKey, next.value.value, next.value.next;
      exhausted := !next.value.hasNext;
      if !exhausted {
        AtIs(ldb.list, i + 1);
      }
      return true;
    }
  }

  // Draining an iterator gives what remained, each entry once, or a prefix of it and an error.
  method Drain(it: Iterator) returns (entries: List)
    requires it.Valid() && !it.failed
    modifies it, it.ldb`headKeyIsSynced, it.ldb`headKeyExists, it.ldb`headKey, it.ldb`nodeCache
    ensures it.Valid() && entries <= old(it.Remaining())
    ensures it.failed ==> it.ldb.flaky
    ensures !it.failed ==> entries == old(it.Remaining())
    decreases |it.Remaining()|
  {
    ghost var all := it.Remaining();
    var more := it.Next();
    if !more {
      return [];
    }
    var first := Entry(it.key, it.value);
    var rest := Drain(it);
    entries := [first] + rest;
    PrefixGrows(first, rest, all);
  }

  lemma PrefixGrows<T>(first: T, rest: seq<T>, all: seq<T>)
    requires all != [] && first == all[0] && rest <= all[1..]
    ensures [first] + rest <= all && (rest == all[1..] ==> [first] + rest == all)
  {
    assert all == [all[0]] + all[1..];
  }

  // On an unchanged list an iteration that meets no error gives the suffix from the start key, or the
  // whole list if the key is absent.
  method ListFrom(ldb: LinkedDB, start: Key) returns (entries: List, failed: bool)
    requires ldb.Valid()
    modifies ldb`headKeyIsSynced, ldb`headKeyExists, ldb`headKey, ldb`nodeCache
    ensures ldb.Valid() && (failed ==> ldb.flaky)
    ensures !failed ==> entries == From(ldb.list, start) || (ldb.flaky && entries == ldb.list)
  {
    var it := new Iterator.WithStart(ldb, start);
    entries := Drain(it);
    failed := it.failed;
  }

  lemma HeadWriteKeepsNodes(a: Store, b: Store)
    requires forall k | k != HEAD_KEY :: SameAt(a, b, k)
    ensures forall key :: SameAt(a, b, NodeKey(key))
  {
    forall key
      ensures SameAt(a, b, NodeKey(key))
    {
      NodeKeyInjective(key, key);
    }
  }

  lemma NodeWriteKeepsOthers(a: Store, b: Store, key: Key)
    requires forall k | k != NodeKey(key) :: SameAt(a, b, k)
    ensures SameAt(a, b, HEAD_KEY) && forall other | other != key :: SameAt(a, b, NodeKey(other))
  {
    NodeKeyInjective(key, key);
    forall other | other != key
      ensures SameAt(a, b, NodeKey(other))
    {
      NodeKeyInjective(key, other);
    }
  }
}
