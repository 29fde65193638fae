/**
 cache/unique_cache.go: the de-duplicating cache. It returns the live object for a key, and tells each
 object that leaves that it has been evicted.
 */
module UniqueCache {
  import opened Wrappers
  import Lru

  // An object with a key. Objects are told apart by reference.
  class Evictable<K> {
    const key: K

    constructor (key: K)
      ensures this.key == key
    {
      this.key := key;
    }
  }

  ghost predicate DistinctKeys<K>(list: seq<Evictable<K>>) {
    forall i, j | 0 <= i < j < |list| :: list[i].key != list[j].key
  }

  // Without the object at position i.
  function RemovedAt<T>(list: seq<T>, i: nat): seq<T>
    requires i < |list|
  {
    list[..i] + list[i + 1..]
  }

  ghost predicate Keyed<K>(entryMap: map<K, Evictable<K>>, list: seq<Evictable<K>>) {
    && DistinctKeys(list)
    && (forall o | o in list :: o.key in entryMap && entryMap[o.key] == o)
    && (forall k | k in entryMap :: entryMap[k] in list && entryMap[k].key == k)
  }

  lemma KeyedRemoved<K>(entryMap: map<K, Evictable<K>>, list: seq<Evictable<K>>, i: nat)
    requires Keyed(entryMap, list) && i < |list|
    ensures Keyed(entryMap - {list[i].key}, RemovedAt(list, i)) && list[i] !in RemovedAt(list, i)
    ensures forall o | o in list && o != list[i] :: o in RemovedAt(list, i)
  {
    var list' := RemovedAt(list, i);
    assert forall j | 0 <= j < |list'| :: list'[j] == list[if j < i then j else j + 1];
    forall o | o in list && o != list[i]
      ensures o in list'
    {
      var j :| 0 <= j < |list| && list[j] == o;
      assert list'[if j < i then j else j - 1] == o;
    }
  }

  lemma KeyedAdded<K>(entryMap: map<K, Evictable<K>>, list: seq<Evictable<K>>, o: Evictable<K>)
    requires Keyed(entryMap, list) && o.key !in entryMap
    ensures Keyed(entryMap[o.key := o], list + [o])
  {
    assert forall x | x in list :: x.key != o.key;
  }

  lemma KeyedFront<K>(entryMap: map<K, Evictable<K>>, list: seq<Evictable<K>>)
    requires Keyed(entryMap, list) && list != []
    ensures Keyed(entryMap - {list[0].key}, list[1..])
  {
    KeyedRemoved(entryMap, list, 0);
    assert RemovedAt(list, 0) == list[1..];
  }

  // Pushing to a full list, and to another one.
  lemma PushFull<T>(gone: seq<T>, list: seq<T>, x: T, n: nat)
    requires 0 < n == |list|
    ensures list[1..] + [x] == Lru.Newest(list + [x], n)
    ensures (gone + [list[0]]) + (list[1..] + [x]) == gone + list + [x]
  {
  }

  lemma PushRoom<T>(gone: seq<T>, list: seq<T>, x: T, n: nat)
    requires |list| < n
    ensures list + [x] == Lru.Newest(list + [x], n) && gone + (list + [x]) == gone + list + [x]
  {
  }

  // The oldest of the list have been evicted, in order.
  ghost predicate Left<T>(evicted: seq<T>, list: seq<T>, evicted': seq<T>, list': seq<T>) {
    && evicted' + list' == evicted + list
    && |list'| <= |list| && list' == Lru.Newest(list, |list'|)
  }

  lemma LeftMore<T>(evicted: seq<T>, list: seq<T>, evicted': seq<T>, list': seq<T>)
    requires Left(evicted, list, evicted', list') && list' != []
    ensures Left(evicted, list, evicted' + [list'[0]], list'[1..])
  {
    assert evicted' + [list'[0]] + list'[1..] == evicted' + list';
    Lru.NewestShorter(list, |list'|);
  }

  class EvictableLRU<K(==)> {
    var entryMap: map<K, Evictable<K>>
    var entryList: seq<Evictable<K>>
    var size: int
    // The objects whose Evict has been called, in order.
    var evicted: seq<Evictable<K>>

    constructor (size: int)
      ensures Valid() && entryList == [] && evicted == [] && this.size == size
    {
      entryMap, entryList, evicted, this.size := map[], [], [], size;
    }

    // The map and the list hold the same objects, one per key.
    ghost predicate Valid()
      reads this
    {
      Keyed(entryMap, entryList)
    }

    method EvictFront()
      requires Valid() && entryList != []
      modifies `entryMap, `entryList, `evicted
      ensures Valid() && entryList == old(entryList)[1..] && evicted == old(evicted) + [old(entryList)[0]]
      ensures entryMap == old(entryMap) - {old(entryList)[0].key}
    {
      var o := entryList[0];
      KeyedFront(entryMap, entryList);
      entryMap, entryList, evicted := entryMap - {o.key}, entryList[1..], evicted + [o];
    }

    // The oldest objects over the size leave, each told once.
    method Resize()
      requires Valid() && size >= 0
      modifies `entryMap, `entryList, `evicted
      ensures Valid() && entryList == Lru.Newest(old(entryList), size)
      ensures evicted + entryList == old(evicted) + old(entryList)
    {
      while |entryList| > size
        invariant Valid() && Left(old(evicted), old(entryList), evicted, entryList)
        invariant |entryList| < |old(entryList)| ==> |entryList| >= size
      {
        LeftMore(old(evicted), old(entryList), evicted, entryList);
        EvictFront();
      }
    }

    method PushBack(value: Evictable<K>)
      requires Valid() && value.key !in entryMap
      modifies `entryMap, `entryList
      ensures Valid() && entryList == old(entryList) + [value]
    {
      KeyedAdded(entryMap, entryList, value);
      entryMap, entryList := entryMap[value.key := value], entryList + [value];
    }

    // A new object is the most recent one; if there is no room the oldest one leaves.
    method Insert(value: Evictable<K>)
      requires Valid() && value.key !in entryMap && 0 < size && |entryList| <= size
      modifies `entryMap, `entryList, `evicted
      ensures Valid() && entryList == Lru.Newest(old(entryList) + [value], size)
      ensures evicted + entryList == old(evicted) + old(entryList) + [value]
    {
      if |entryList| >= size {
        PushFull(evicted, entryList, value, size);
        EvictFront();
      } else {
        PushRoom(evicted, entryList, value, size);
      }
      PushBack(value);
    }

    // A known object becomes the most recent one.
    method Touch(key: K) returns (r: Evictable<K>, i: nat)
      requires Valid() && key in entryMap
      modifies `entryList
      ensures Valid() && i < |old(entryList)| && r == old(entryList)[i] && r.key == key &&
              entryList == RemovedAt(old(entryList), i) + [r]
    {
      r := entryMap[key];
      i :| 0 <= i < |entryList| && entryList[i] == r;
      KeyedRemoved(entryMap, entryList, i);
      KeyedAdded(entryMap - {key}, RemovedAt(entryList, i), r);
      assert (entryMap - {key})[key := r] == entryMap;
      entryList := RemovedAt(entryList, i) + [r];
    }

    // The value itself, or the live object with its key, at position `found` of those kept; it is the most
    // recent one then. Exactly the objects that leave are told, once each and in order.
    method Deduplicate(value: Evictable<K>) returns (r: Evictable<K>, ghost found: Option<nat>)
      requires Valid()
      modifies this
      ensures Valid() && size == Lru.SizeOf(old(size)) && r.key == value.key
      ensures found.None? ==> (forall o | o in Lru.Newest(old(entryList), size) :: o.key != value.key)
      ensures found.None? ==> r == value && entryList == Lru.Newest(Lru.Newest(old(entryList), size) + [value], size)
      ensures found.None? ==> evicted + entryList == old(evicted) + old(entryList) + [value]
      ensures found.Some? ==>
                found.value < |Lru.Newest(old(entryList), size)| && r == Lru.Newest(old(entryList), size)[found.value]
      ensures found.Some? ==> entryList == RemovedAt(Lru.Newest(old(entryList), size), found.value) + [r]
      ensures found.Some? ==> evicted + Lru.Newest(old(entryList), size) == old(evicted) + old(entryList)
    {
      if size <= 0 {
        size := 1;
      }
      Resize();
      if value.key !in entryMap {
        found := None;
        Insert(value);
        r := value;
      } else {
        var i: nat;
        r, i := Touch(value.key);
        found := Some(i);
      }
    }

    // Every object leaves and is told once.
    method Flush()
      requires Valid()
      modifies this
      ensures Valid() && entryList == [] && size == Lru.SizeOf(old(size)) && evicted == old(evicted) + old(entryList)
    {
      if size <= 0 {
        size := 1;
      }
      var was := size;
      size := 0;
      Resize();
      size := was;
    }
  }
}
