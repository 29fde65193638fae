/**
 database/linkeddb: how a sequence of entries is laid out in a key/value store as a doubly linked
 list, and what the store must hold after an entry is updated, prepended or removed.
 */
module LinkedList {
  import opened Wrappers
  import opened Bytes
  import opened Database
  import opened Entries

  type Key = bytes
  type List = seq<Entry<Key, bytes>>

  datatype Node = Node(value: bytes, hasNext: bool, next: Key, hasPrevious: bool, previous: Key)

  // How nodes are marshalled. encode may fail; module NodeCodec shows the source's format round trips.
  datatype Format = Format(encode: Node -> Option<bytes>, decode: bytes -> Option<Node>)

  ghost predicate RoundTrips(f: Format) {
    forall n {:trigger f.encode(n)} :: f.encode(n).Some? ==> f.decode(f.encode(n).value) == Some(n)
  }

  const HEAD_KEY: bytes := [1]

  function NodeKey(key: Key): bytes {
    [0] + key
  }

  lemma NodeKeyInjective(a: Key, b: Key)
    ensures NodeKey(a) == NodeKey(b) <==> a == b
    ensures NodeKey(a) != HEAD_KEY
  {
    assert NodeKey(a)[1..] == a && NodeKey(b)[1..] == b;
    assert NodeKey(a)[0] == 0;
  }

  lemma NodeKeyOf(k: bytes)
    requires k != [] && k[0] == 0
    ensures k == NodeKey(k[1..])
  {
  }

  // The list operations on sequences: a put updates in place or prepends.
  function ListPut(l: List, key: Key, value: bytes): List {
    if Has(l, key) then Updated(l, key, value) else [Entry(key, value)] + l
  }

  function Updated(l: List, key: Key, value: bytes): List {
    seq(|l|, i requires 0 <= i < |l| => if l[i].key == key then Entry(key, value) else l[i])
  }

  function ListDelete(l: List, key: Key): List {
    Without(l, key)
  }

  // A put sets one entry: the key's, where it was or in front. The other entries and their order stay.
  lemma ListPutAt(l: List, key: Key, value: bytes) returns (i: nat)
    requires Distinct(l)
    ensures var l' := ListPut(l, key, value);
            i < |l'| && l'[i] == Entry(key, value) && Distinct(l') && Without(l', key) == Without(l, key)
    ensures if Has(l, key) then |ListPut(l, key, value)| == |l| && i < |l| && l[i].key == key else i == 0
  {
    if Has(l, key) {
      i := KeyFound(l, key);
      UpdateAt(l, i, value);
    } else {
      i := 0;
      PrependAt(l, Entry(key, value));
    }
  }

  lemma UpdateAt(l: List, i: nat, value: bytes)
    requires Distinct(l) && i < |l|
    ensures var l' := ListPut(l, l[i].key, value);
            && |l'| == |l| && l'[i] == Entry(l[i].key, value) && Distinct(l') &&
                Without(l', l[i].key) == Without(l, l[i].key)
  {
    var l' := ListPut(l, l[i].key, value);
    UpdatedNodes(l, i, value);
    assert l' == l[i := Entry(l[i].key, value)];
    assert l'[..i] == l[..i] && l'[i + 1..] == l[i + 1..];
    WithoutAt(l, i);
    WithoutAt(l', i);
  }

  lemma PrependAt(l: List, e: Entry<Key, bytes>)
    requires Distinct(l) && !Has(l, e.key)
    ensures Distinct([e] + l) && Without([e] + l, e.key) == Without(l, e.key)
  {
    WithoutConcat([e], l, e.key);
    assert Without([e], e.key) == Without([e][..0], e.key) == [];
    forall j | 0 <= j < |l|
      ensures l[j].key != e.key
    {
      assert !Has(l, e.key);
    }
  }

  lemma ListPutMeaning(l: List, key: Key, value: bytes, x: Key)
    requires Distinct(l)
    ensures Has(ListPut(l, key, value), x) <==> x == key || Has(l, x)
    ensures ValueOf(ListPut(l, key, value), x) == if x == key then Some(value) else ValueOf(l, x)
  {
    var i := ListPutAt(l, key, value);
    var l' := ListPut(l, key, value);
    WithoutAt(l', i);
    assert Has(l', key);
    WithoutKeepsOthers(l, key, x);
    WithoutKeepsOthers(l', key, x);
  }

  function NodeAt(l: List, i: nat): Node
    requires i < |l|
  {
    Node(l[i].value,
         i + 1 < |l|, if i + 1 < |l| then l[i + 1].key else [],
         i > 0, if i > 0 then l[i - 1].key else [])
  }

  ghost predicate Stored(f: Format, db: Store, key: Key, n: Node) {
    NodeKey(key) in db && f.decode(db[NodeKey(key)]) == Some(n)
  }

  ghost predicate HeadOk(db: Store, l: List) {
    if l == [] then HEAD_KEY !in db else HEAD_KEY in db && db[HEAD_KEY] == l[0].key
  }

  ghost predicate NodesOk(f: Format, db: Store, l: List) {
    forall i {:trigger NodeAt(l, i)} | 0 <= i < |l| :: Stored(f, db, l[i].key, NodeAt(l, i))
  }

  // Nothing else is in the store.
  ghost predicate NoOthers(db: Store, l: List) {
    forall k | k in db :: k == HEAD_KEY || (k != [] && k[0] == 0 && Has(l, k[1..]))
  }

  // The store holds exactly the list: the head key, and per entry a node linked to its neighbours.
  ghost predicate Represents(f: Format, db: Store, l: List) {
    Distinct(l) && HeadOk(db, l) && NodesOk(f, db, l) && NoOthers(db, l)
  }

  // A store holds at most one list.
  lemma OneList(f: Format, db: Store, a: List, b: List)
    requires Represents(f, db, a) && Represents(f, db, b)
    ensures a == b
  {
    if |a| <= |b| {
      SamePrefix(f, db, a, b, |a|);
      assert a[..|a|] == a && b[..|b|] == b;
    } else {
      SamePrefix(f, db, b, a, |b|);
    }
  }

  lemma {:induction false} SamePrefix(f: Format, db: Store, a: List, b: List, n: nat)
    requires HeadOk(db, a) && HeadOk(db, b) && NodesOk(f, db, a) && NodesOk(f, db, b) && n <= |a| <= |b|
    ensures a[..n] == b[..n] && (n == |a| ==> |a| == |b|)
  {
    if n > 0 {
      SamePrefix(f, db, a, b, n - 1);
      if n > 1 {
        assert a[n - 2] == a[..n - 1][n - 2] && b[n - 2] == b[..n - 1][n - 2];
        assert NodeAt(a, n - 2) == NodeAt(b, n - 2);
      }
      assert a[n - 1].key == b[n - 1].key;
      assert NodeAt(a, n - 1) == NodeAt(b, n - 1);
      assert a[..n] == a[..n - 1] + [a[n - 1]] && b[..n] == b[..n - 1] + [b[n - 1]];
    }
  }

  lemma KeyFound(l: List, key: Key) returns (i: nat)
    requires Has(l, key)
    ensures i < |l| && l[i].key == key
  {
    i :| 0 <= i < |l| && l[i].key == key;
  }

  // Presence of a key's node decides presence in the list.
  lemma HasNode(f: Format, db: Store, l: List, key: Key)
    requires Represents(f, db, l)
    ensures NodeKey(key) in db <==> Has(l, key)
  {
    NodeKeyInjective(key, key);
    if NodeKey(key) in db {
      assert NodeKey(key)[1..] == key;
    }
    if Has(l, key) {
      var i := KeyFound(l, key);
      assert NodeAt(l, i) == NodeAt(l, i);
    }
  }

  lemma UpdatedNodes(l: List, i: nat, value: bytes)
    requires Distinct(l) && i < |l|
    ensures var l' := Updated(l, l[i].key, value);
            && ListPut(l, l[i].key, value) == l' && |l'| == |l| && Distinct(l')
            && (forall j | 0 <= j < |l| :: l'[j].key == l[j].key)
            && (forall j | 0 <= j < |l| ::
                NodeAt(l', j) == if j == i then NodeAt(l, i).(value := value) else NodeAt(l, j))
  {
    var l' := Updated(l, l[i].key, value);
    assert Has(l, l[i].key);
    assert forall j | 0 <= j < |l| :: l'[j].key == l[j].key;
    assert forall j | 0 <= j < |l| && j != i :: l'[j] == l[j];
  }

  lemma PutInPlace(f: Format, db: Store, l: List, i: nat, value: bytes, b: bytes)
    requires Represents(f, db, l) && i < |l| && f.decode(b) == Some(NodeAt(l, i).(value := value))
    ensures Represents(f, db[NodeKey(l[i].key) := b], ListPut(l, l[i].key, value))
  {
    var key := l[i].key;
    var db', l' := db[NodeKey(key) := b], ListPut(l, key, value);
    UpdatedNodes(l, i, value);
    NodeKeyInjective(key, key);
    assert Stored(f, db, key, NodeAt(l, i));
    forall j | 0 <= j < |l'|
      ensures Stored(f, db', l'[j].key, NodeAt(l', j))
    {
      NodeKeyInjective(key, l[j].key);
      assert Stored(f, db, l[j].key, NodeAt(l, j));
    }
    SameKeysNoOthers(db, db', l, l');
  }

  lemma SameKeysNoOthers(db: Store, db': Store, l: List, l': List)
    requires NoOthers(db, l) && db'.Keys == db.Keys && |l'| == |l| && forall j | 0 <= j < |l| :: l'[j].key == l[j].key
    ensures NoOthers(db', l')
  {
    forall k | k in db'
      ensures k == HEAD_KEY || (k != [] && k[0] == 0 && Has(l', k[1..]))
    {
      if k != HEAD_KEY {
        var j := KeyFound(l, k[1..]);
        assert l'[j].key == k[1..];
      }
    }
  }

  function PrependedStore(db: Store, l: List, key: Key, oldHead: bytes, newHead: bytes): Store {
    (if l == [] then db else db[NodeKey(l[0].key) := oldHead])[NodeKey(key) := newHead][HEAD_KEY := key]
  }

  lemma PutAtFront(f: Format, db: Store, l: List, key: Key, value: bytes, oldHead: bytes, newHead: bytes)
    requires Represents(f, db, l) && !Has(l, key)
    requires var l' := [Entry(key, value)] + l;
             f.decode(newHead) == Some(NodeAt(l', 0)) && (l != [] ==> f.decode(oldHead) == Some(NodeAt(l', 1)))
    ensures Represents(f, PrependedStore(db, l, key, oldHead, newHead), ListPut(l, key, value))
  {
    var db', l' := PrependedStore(db, l, key, oldHead, newHead), [Entry(key, value)] + l;
    PrependAt(l, Entry(key, value));
    forall j | 0 <= j < |l'|
      ensures Stored(f, db', l'[j].key, NodeAt(l', j))
    {
      NodeKeyInjective(key, key);
      if j > 0 {
        PrependedNode(f, db, l, key, value, oldHead, newHead, j - 1);
      }
    }
    PrependedNoOthers(db, l, key, value, oldHead, newHead);
  }

  lemma PrependedNode(f: Format, db: Store, l: List, key: Key, value: bytes, oldHead: bytes, newHead: bytes, j: nat)
    requires NodesOk(f, db, l) && Distinct(l) && !Has(l, key) && j < |l|
    requires f.decode(oldHead) == Some(NodeAt([Entry(key, value)] + l, 1))
    ensures Stored(f, PrependedStore(db, l, key, oldHead, newHead), l[j].key, NodeAt([Entry(key, value)] + l, j + 1))
  {
    NodeKeyInjective(l[j].key, key);
    NodeKeyInjective(l[j].key, l[0].key);
    if j > 0 {
      assert Stored(f, db, l[j].key, NodeAt(l, j));
      assert NodeAt([Entry(key, value)] + l, j + 1) == NodeAt(l, j);
    }
  }

  lemma PrependedNoOthers(db: Store, l: List, key: Key, value: bytes, oldHead: bytes, newHead: bytes)
    requires NoOthers(db, l)
    ensures NoOthers(PrependedStore(db, l, key, oldHead, newHead), [Entry(key, value)] + l)
  {
    var db', l' := PrependedStore(db, l, key, oldHead, newHead), [Entry(key, value)] + l;
    forall k | k in db' && k != HEAD_KEY
      ensures k != [] && k[0] == 0 && Has(l', k[1..])
    {
      if k == NodeKey(key) {
        assert l'[0].key == k[1..];
      } else if l != [] && k == NodeKey(l[0].key) {
        assert l'[1].key == k[1..];
      } else {
        var j := KeyFound(l, k[1..]);
        assert l'[j + 1].key == k[1..];
      }
    }
  }

  // Removing entry i changes the links of its neighbours only.
  lemma LinksPast(l: List, i: nat)
    requires i < |l|
    ensures var l' := l[..i] + l[i + 1..];
            && (i > 0 ==>
                  NodeAt(l', i - 1) == NodeAt(l, i - 1).(hasNext := NodeAt(l, i).hasNext, next := NodeAt(l, i).next))
            && (i + 1 < |l| ==>
                  NodeAt(l', i) ==
                  NodeAt(l, i + 1).(hasPrevious := NodeAt(l, i).hasPrevious, previous := NodeAt(l, i).previous))
  {
  }

  // What the batch of a Delete leaves: the node is gone and its neighbours point past it.
  function RemovedStore(db: Store, l: List, i: nat, previous: bytes, next: bytes): Store
    requires i < |l|
  {
    var gone := db - {NodeKey(l[i].key)};
    if i > 0 then
      var linked := gone[NodeKey(l[i - 1].key) := previous];
      if i + 1 < |l| then linked[NodeKey(l[i + 1].key) := next] else linked
    else if i + 1 == |l| then gone - {HEAD_KEY}
    else gone[HEAD_KEY := l[i + 1].key][NodeKey(l[i + 1].key) := next]
  }

  lemma RemoveFromStore(f: Format, db: Store, l: List, i: nat, previous: bytes, next: bytes)
    requires Represents(f, db, l) && i < |l|
    requires var l' := l[..i] + l[i + 1..];
             && (i > 0 ==> f.decode(previous) == Some(NodeAt(l', i - 1)))
             && (i + 1 < |l| ==> f.decode(next) == Some(NodeAt(l', i)))
    ensures Represents(f, RemovedStore(db, l, i, previous, next), ListDelete(l, l[i].key))
  {
    var db', l' := RemovedStore(db, l, i, previous, next), l[..i] + l[i + 1..];
    WithoutAt(l, i);
    WithoutDistinct(l, l[i].key);
    RemovedHead(db, l, i, previous, next);
    forall j | 0 <= j < |l'|
      ensures Stored(f, db', l'[j].key, NodeAt(l', j))
    {
      RemovedNode(f, db, l, i, previous, next, j);
    }
    RemovedNoOthers(db, l, i, previous, next);
  }

  lemma RemovedHead(db: Store, l: List, i: nat, previous: bytes, next: bytes)
    requires HeadOk(db, l) && i < |l|
    ensures HeadOk(RemovedStore(db, l, i, previous, next), l[..i] + l[i + 1..])
  {
    NodeKeyInjective(l[i].key, l[i].key);
    if i > 0 { NodeKeyInjective(l[i - 1].key, l[i - 1].key); }
    if i + 1 < |l| { NodeKeyInjective(l[i + 1].key, l[i + 1].key); }
  }

  // What is under the node keys of the other entries.
  lemma RemovedStoreAt(db: Store, l: List, i: nat, previous: bytes, next: bytes, j: nat)
    requires Distinct(l) && i < |l| && j < |l| && j != i && NodeKey(l[j].key) in db
    ensures var db' := RemovedStore(db, l, i, previous, next);
            && NodeKey(l[j].key) in db'
            && db'[NodeKey(l[j].key)] == if j == i - 1 then previous else if j == i + 1 then next
                else db[NodeKey(l[j].key)]
  {
    NodeKeyInjective(l[j].key, l[i].key);
    if i > 0 { NodeKeyInjective(l[j].key, l[i - 1].key); }
    if i + 1 < |l| { NodeKeyInjective(l[j].key, l[i + 1].key); }
  }

  lemma RemovedNode(f: Format, db: Store, l: List, i: nat, previous: bytes, next: bytes, j: nat)
    requires Distinct(l) && NodesOk(f, db, l) && i < |l| && j < |l| - 1
    requires var l' := l[..i] + l[i + 1..];
             && (i > 0 ==> f.decode(previous) == Some(NodeAt(l', i - 1)))
             && (i + 1 < |l| ==> f.decode(next) == Some(NodeAt(l', i)))
    ensures var l' := l[..i] + l[i + 1..];
            Stored(f, RemovedStore(db, l, i, previous, next), l'[j].key, NodeAt(l', j))
  {
    var l' := l[..i] + l[i + 1..];
    var from := if j < i then j else j + 1;
    assert l'[j] == l[from];
    assert Stored(f, db, l[from].key, NodeAt(l, from));
    RemovedStoreAt(db, l, i, previous, next, from);
    if from != i - 1 && from != i + 1 {
      assert NodeAt(l', j) == NodeAt(l, from);
    }
  }

  lemma RemovedNoOthers(db: Store, l: List, i: nat, previous: bytes, next: bytes)
    requires Distinct(l) && NoOthers(db, l) && i < |l|
    ensures NoOthers(RemovedStore(db, l, i, previous, next), l[..i] + l[i + 1..])
  {
    var db', l' := RemovedStore(db, l, i, previous, next), l[..i] + l[i + 1..];
    forall k | k in db' && k != HEAD_KEY
      ensures k != [] && k[0] == 0 && Has(l', k[1..])
    {
      NodeKeyInjective(l[i].key, l[i].key);
      if i > 0 { NodeKeyInjective(l[i - 1].key, l[i].key); }
      if i + 1 < |l| { NodeKeyInjective(l[i + 1].key, l[i].key); }
      if i > 0 && k == NodeKey(l[i - 1].key) {
        assert l'[i - 1].key == k[1..];
      } else if i + 1 < |l| && k == NodeKey(l[i + 1].key) {
        assert l'[i].key == k[1..];
      } else {
        assert k in db && k != NodeKey(l[i].key);
        var j := KeyFound(l, k[1..]);
        NodeKeyOf(k);
        assert l'[if j < i then j else j - 1].key == k[1..];
      }
    }
  }
}
