/**
 cache/lru_cache.go: the least-recently-used cache, as a sequence of entries with the least
 recently used first, and the class with a map and a list of shared elements that refines it.
 */
module Lru {
  import opened Wrappers
  import opened Entries

  // ---------- On sequences ----------

  // The last n entries.
  function Newest<T>(es: seq<T>, n: nat): seq<T> {
    if |es| <= n then es else es[|es| - n..]
  }

  function SizeOf(size: int): nat {
    if size <= 0 then 1 else size
  }

  // What put, get and evict leave in a cache of the given size.
  function AfterPut<K(==), V>(es: seq<Entry<K, V>>, size: int, k: K, v: V): seq<Entry<K, V>> {
    Newest(Without(Newest(es, SizeOf(size)), k) + [Entry(k, v)], SizeOf(size))
  }

  function AfterGet<K(==), V>(es: seq<Entry<K, V>>, size: int, k: K): seq<Entry<K, V>> {
    var kept := Newest(es, SizeOf(size));
    match ValueOf(kept, k)
    case None => kept
    case Some(v) => Without(kept, k) + [Entry(k, v)]
  }

  function AfterEvict<K(==), V>(es: seq<Entry<K, V>>, size: int, k: K): seq<Entry<K, V>> {
    Without(Newest(es, SizeOf(size)), k)
  }

  // ---------- What the cache holds after any run ----------

  datatype Use<K, V> = DoPut(key: K, value: V) | DoGet(key: K) | DoEvict(key: K) | DoFlush

  function After<K(==), V>(size: int, uses: seq<Use<K, V>>): seq<Entry<K, V>> {
    if uses == [] then []
    else
      var before := After(size, uses[..|uses| - 1]);
      match uses[|uses| - 1]
      case DoPut(k, v) => AfterPut(before, size, k, v)
      case DoGet(k) => AfterGet(before, size, k)
      case DoEvict(k) => AfterEvict(before, size, k)
      case DoFlush => []
  }

  // The last touch of each key, in order: every put, and every get that finds its key, counts as a touch,
  // unless the key was evicted or the cache flushed since.
  function Recent<K(==), V>(size: int, uses: seq<Use<K, V>>): seq<Entry<K, V>> {
    if uses == [] then []
    else
      var init := uses[..|uses| - 1];
      match uses[|uses| - 1]
      case DoPut(k, v) => Without(Recent(size, init), k) + [Entry(k, v)]
      case DoGet(k) =>
        (match ValueOf(After(size, init), k)
         case None => Recent(size, init)
         case Some(v) => Without(Recent(size, init), k) + [Entry(k, v)])
      case DoEvict(k) => Without(Recent(size, init), k)
      case DoFlush => []
  }

  // Since it was put the key has always been among the most recently touched ones, as many as fit.
  ghost predicate Stays<K, V>(size: int, uses: seq<Use<K, V>>, k: K) {
    && uses != []
    && Has(Newest(Recent(size, uses), SizeOf(size)), k)
    && (var last := uses[|uses| - 1];
        (last.DoPut? && last.key == k) || Stays(size, uses[..|uses| - 1], k))
  }

  lemma NewestOfLonger<T>(a: seq<T>, b: seq<T>, n: nat)
    requires |b| >= n
    ensures Newest(a + b, n) == Newest(b, n)
  {
  }

  lemma NewestDistinct<K, V>(es: seq<Entry<K, V>>, n: nat)
    requires Distinct(es)
    ensures Distinct(Newest(es, n))
  {
  }

  lemma NewestShorter<T>(es: seq<T>, n: nat)
    requires 0 < n <= |es|
    ensures Newest(es, n)[1..] == Newest(es, n - 1)
  {
  }

  // ---------- One use ----------

  // `es` are the newest of `recent`, and fit.
  ghost predicate NewestOf<K, V>(es: seq<Entry<K, V>>, recent: seq<Entry<K, V>>, n: nat) {
    |es| <= n && |es| <= |recent| && es == recent[|recent| - |es|..]
  }

  lemma SuffixHas<K, V>(es: seq<Entry<K, V>>, recent: seq<Entry<K, V>>, n: nat, k: K)
    requires NewestOf(es, recent, n) && Has(es, k)
    ensures Has(Newest(recent, n), k)
  {
    var i :| 0 <= i < |es| && es[i].key == k;
    var newest := Newest(recent, n);
    assert newest[|newest| - |es| + i] == es[i];
  }

  lemma SplitNewest<K, V>(es: seq<Entry<K, V>>, recent: seq<Entry<K, V>>, n: nat, k: K)
    returns (older: seq<Entry<K, V>>)
    requires NewestOf(es, recent, n)
    ensures recent == older + es && Without(recent, k) == Without(older, k) + Without(es, k)
  {
    older := recent[..|recent| - |es|];
    assert recent == older + es;
    WithoutConcat(older, es, k);
  }

  // A key that is put, or found, becomes the most recent one. Another key stays if it was there and is
  // still among the most recent ones.
  lemma Touch<K, V>(es: seq<Entry<K, V>>, recent: seq<Entry<K, V>>, n: nat, e: Entry<K, V>, k: K)
    requires NewestOf(es, recent, n) && n > 0
    ensures var es', recent' := Newest(Without(es, e.key) + [e], n), Without(recent, e.key) + [e];
            && NewestOf(es', recent', n)
            && (Has(es', k) <==> k == e.key || (Has(es, k) && Has(Newest(recent', n), k)))
  {
    var older := SplitNewest(es, recent, n, e.key);
    var all, recent' := Without(es, e.key) + [e], Without(recent, e.key) + [e];
    WithoutShorter(es, e.key);
    assert recent' == Without(older, e.key) + all;
    WithoutKeepsOthers(es, e.key, k);
    HasAppended(Without(es, e.key), e, k);
    Trimmed(Without(older, e.key), all, n, k);
    NewestHas(all, n, k);
    NewestHasLast(Without(es, e.key), e, n);
  }

  lemma NewestHasLast<K, V>(es: seq<Entry<K, V>>, e: Entry<K, V>, n: nat)
    requires n > 0
    ensures Has(Newest(es + [e], n), e.key)
  {
    var newest := Newest(es + [e], n);
    assert newest[|newest| - 1] == e;
  }

  // Trimming `all`, at most one over the size, keeps the newest of everything.
  lemma Trimmed<K, V>(older: seq<Entry<K, V>>, all: seq<Entry<K, V>>, n: nat, k: K)
    requires |all| <= n + 1
    ensures NewestOf(Newest(all, n), older + all, n)
    ensures Has(all, k) ==> (Has(Newest(all, n), k) <==> Has(Newest(older + all, n), k))
  {
    if |all| <= n {
      assert NewestOf(all, older + all, n);
      if Has(all, k) {
        SuffixHas(all, older + all, n, k);
      }
    } else {
      NewestOfLonger(older, all, n);
    }
  }

  lemma {:induction false} WithoutShorter<K, V>(es: seq<Entry<K, V>>, k: K)
    ensures |Without(es, k)| <= |es|
  {
    if es != [] {
      WithoutShorter(es[..|es| - 1], k);
    }
  }

  // An evicted key leaves, the others stay.
  lemma Leave<K, V>(es: seq<Entry<K, V>>, recent: seq<Entry<K, V>>, n: nat, gone: K, k: K)
    requires NewestOf(es, recent, n)
    ensures var es', recent' := Without(es, gone), Without(recent, gone);
            && NewestOf(es', recent', n)
            && (Has(es', k) <==> Has(es, k) && Has(Newest(recent', n), k))
  {
    var older := SplitNewest(es, recent, n, gone);
    WithoutShorter(es, gone);
    WithoutKeepsOthers(es, gone, k);
    WithoutKeepsOthers(recent, gone, k);
    if Has(Without(es, gone), k) {
      SuffixHas(Without(es, gone), Without(recent, gone), n, k);
    } else if k == gone {
      NewestHas(Without(recent, gone), n, k);
    }
  }

  lemma NewestHas<K, V>(es: seq<Entry<K, V>>, n: nat, k: K)
    ensures Has(Newest(es, n), k) ==> Has(es, k)
  {
    if Has(Newest(es, n), k) {
      var i :| 0 <= i < |Newest(es, n)| && Newest(es, n)[i].key == k;
      assert es[|es| - |Newest(es, n)| + i].key == k;
    }
  }

  // ---------- Any run ----------

  // After any run of a cache of a fixed size: what it holds are the newest of the last touches, in their
  // order and with their values, no more than fit; and it holds exactly the keys that always stayed among
  // the most recently touched ones.
  lemma {:induction false} HoldsMostRecent<K, V>(size: int, uses: seq<Use<K, V>>, k: K)
    ensures NewestOf(After(size, uses), Recent(size, uses), SizeOf(size))
    ensures Has(After(size, uses), k) <==> Stays(size, uses, k)
  {
    if uses != [] {
      var init, last, n := uses[..|uses| - 1], uses[|uses| - 1], SizeOf(size);
      HoldsMostRecent(size, init, k);
      var before := After(size, init);
      assert Newest(before, n) == before;
      match last {
        case DoPut(key, v) => Touch(before, Recent(size, init), n, Entry(key, v), k);
          if k == key {
            SuffixHas(After(size, uses), Recent(size, uses), n, k);
          }
        case DoGet(key) => Found(before, Recent(size, init), size, key, k);
        case DoEvict(key) => Leave(before, Recent(size, init), n, key, k);
        case DoFlush =>
      }
    }
  }

  lemma Found<K, V>(es: seq<Entry<K, V>>, recent: seq<Entry<K, V>>, size: int, key: K, k: K)
    requires NewestOf(es, recent, SizeOf(size))
    ensures var es' := AfterGet(es, size, key);
            var recent' := match ValueOf(es, key)
                           case None => recent
                           case Some(v) => Without(recent, key) + [Entry(key, v)];
            && NewestOf(es', recent', SizeOf(size))
            && (Has(es', k) <==> Has(es, k) && Has(Newest(recent', SizeOf(size)), k))
  {
    var n := SizeOf(size);
    assert Newest(es, n) == es;
    match ValueOf(es, key) {
      case None =>
        if Has(es, k) {
          SuffixHas(es, recent, n, k);
        }
      case Some(v) =>
        Touch(es, recent, n, Entry(key, v), k);
        HasRemoved(es, key);
        WithoutKeepsOthers(es, key, key);
        assert AfterGet(es, size, key) == Newest(Without(es, key) + [Entry(key, v)], n);
        if k == key {
          SuffixHas(AfterGet(es, size, key), Without(recent, key) + [Entry(key, v)], n, k);
        }
    }
  }

  lemma {:induction false} HasRemoved<K, V>(es: seq<Entry<K, V>>, k: K)
    ensures Has(es, k) ==> |Without(es, k)| < |es|
  {
    if es != [] {
      var front, last := es[..|es| - 1], es[|es| - 1];
      HasRemoved(front, k);
      WithoutShorter(front, k);
      assert es == front + [last];
      HasAppended(front, last, k);
    }
  }

  // Without evictions the cache is as full as it can be.
  lemma {:induction false} FullWithoutEvictions<K, V>(size: int, uses: seq<Use<K, V>>)
    requires forall u | u in uses :: !u.DoEvict?
    ensures After(size, uses) == Newest(Recent(size, uses), SizeOf(size))
  {
    if uses != [] {
      var init, last, n := uses[..|uses| - 1], uses[|uses| - 1], SizeOf(size);
      FullWithoutEvictions(size, init);
      assert last in uses && forall u | u in init :: u in uses;
      RecentDistinct(size, init);
      var before := After(size, init);
      NewestDistinct(Recent(size, init), n);
      assert Newest(before, n) == before;
      if !last.DoFlush? {
        WithoutKeepsOthers(before, last.key, last.key);
        WithoutDistinct(before, last.key);
        var v := if last.DoPut? then Some(last.value) else ValueOf(before, last.key);
        if v.Some? {
          TrimFirst(Recent(size, init), n, Entry(last.key, v.value));
        }
      }
    }
  }

  lemma {:induction false} RecentDistinct<K, V>(size: int, uses: seq<Use<K, V>>)
    ensures Distinct(Recent(size, uses))
  {
    if uses != [] {
      var recent, last := Recent(size, uses[..|uses| - 1]), uses[|uses| - 1];
      RecentDistinct(size, uses[..|uses| - 1]);
      if !last.DoFlush? {
        WithoutDistinct(recent, last.key);
        WithoutKeepsOthers(recent, last.key, last.key);
        assert forall i | 0 <= i < |Without(recent, last.key)| :: Without(recent, last.key)[i].key != last.key;
      }
    }
  }

  // Trimming before an entry is moved to the end makes no difference to what is kept.
  lemma TrimFirst<K, V>(es: seq<Entry<K, V>>, n: nat, e: Entry<K, V>)
    requires Distinct(es) && n > 0
    ensures Newest(Without(Newest(es, n), e.key) + [e], n) == Newest(Without(es, e.key) + [e], n)
  {
    if |es| > n {
      var a, b := es[..|es| - n], es[|es| - n..];
      assert es == a + b;
      WithoutConcat(a, b, e.key);
      WithoutDistinct(b, e.key);
      MoveToEnd(Without(a, e.key), Without(b, e.key), e, n);
    }
  }

  lemma MoveToEnd<T>(a: seq<T>, b: seq<T>, e: T, n: nat)
    requires n <= |b| + 1
    ensures Newest(a + b + [e], n) == Newest(b + [e], n)
  {
    assert a + b + [e] == a + (b + [e]);
    NewestOfLonger(a, b + [e], n);
  }

  // The three ways put goes: refresh, reuse the oldest, append.
  lemma PutCases<K, V>(es: seq<Entry<K, V>>, size: int, k: K, v: V)
    requires Distinct(es)
    ensures var kept := Newest(es, SizeOf(size));
            AfterPut(es, size, k, v) ==
              if Has(kept, k) then Without(kept, k) + [Entry(k, v)]
              else if |kept| == SizeOf(size) then kept[1..] + [Entry(k, v)]
              else kept + [Entry(k, v)]
  {
    NewestDistinct(es, SizeOf(size));
    WithoutDistinct(Newest(es, SizeOf(size)), k);
  }

  // ---------- The class ----------

  class Element<K, V> {
    var key: K
    var value: V

    constructor (key: K, value: V)
      ensures this.key == key && this.value == value
    {
      this.key, this.value := key, value;
    }
  }

  ghost function EntriesOf<K, V>(list: seq<Element<K, V>>): seq<Entry<K, V>>
    reads list
  {
    seq(|list|, i requires 0 <= i < |list| reads list => Entry(list[i].key, list[i].value))
  }

  lemma EntriesWithout<K, V>(list: seq<Element<K, V>>, i: nat)
    requires i < |list|
    ensures EntriesOf(list[..i] + list[i + 1..]) == EntriesOf(list)[..i] + EntriesOf(list)[i + 1..]
  {
  }

  // The oldest elements have been dropped, and so have their entries.
  ghost predicate Shrunk<E, F>(list: seq<E>, contents: seq<F>, list': seq<E>, contents': seq<F>) {
    && |list| == |contents| && |list'| == |contents'| <= |list|
    && list' == Newest(list, |list'|) && contents' == Newest(contents, |list'|)
  }

  lemma ShrunkMore<E, F>(list: seq<E>, contents: seq<F>, list': seq<E>, contents': seq<F>)
    requires Shrunk(list, contents, list', contents') && list' != []
    ensures Shrunk(list, contents, list'[1..], contents'[1..])
  {
    NewestShorter(list, |list'|);
    NewestShorter(contents, |list'|);
  }

  class Cache<K(==), V> {
    var entryMap: map<K, Element<K, V>>
    var entryList: seq<Element<K, V>>
    var size: int

    constructor (size: int)
      ensures Valid() && Contents() == [] && this.size == size
    {
      entryMap, entryList, this.size := map[], [], size;
    }

    // The map and the list hold the same elements, one per key.
    ghost predicate Valid()
      reads this, entryList
    {
      && (forall i, j | 0 <= i < j < |entryList| :: entryList[i] != entryList[j])
      && (forall e | e in entryList :: e.key in entryMap && entryMap[e.key] == e)
      && (forall k | k in entryMap :: entryMap[k] in entryList && entryMap[k].key == k)
    }

    ghost function Contents(): seq<Entry<K, V>>
      reads this, entryList
    {
      EntriesOf(entryList)
    }

    lemma ContentsDistinct()
      requires Valid()
      ensures Distinct(Contents())
      ensures forall k :: k in entryMap <==> Has(Contents(), k)
    {
      forall k
        ensures k in entryMap <==> Has(Contents(), k)
      {
        if k in entryMap {
          var i :| 0 <= i < |entryList| && entryList[i] == entryMap[k];
          assert Contents()[i].key == k;
        }
      }
    }

    // Takes the element at a position out of the list and the map.
    method UnlinkAt(i: nat)
      requires Valid() && i < |entryList|
      modifies this
      ensures Valid() && size == old(size) && entryList == old(entryList)[..i] + old(entryList)[i + 1..]
      ensures entryMap == old(entryMap) - {old(entryList)[i].key} && old(entryList)[i] !in entryList
      ensures Contents() == old(Contents())[..i] + old(Contents())[i + 1..]
    {
      var was := entryList;
      EntriesWithout(was, i);
      entryMap := entryMap - {was[i].key};
      entryList := was[..i] + was[i + 1..];
      assert forall k | 0 <= k < |entryList| :: entryList[k] == was[if k < i then k else k + 1];
      forall k | k in entryMap
        ensures entryMap[k] in entryList
      {
        var j :| 0 <= j < |was| && was[j] == entryMap[k];
        assert entryList[if j < i then j else j - 1] == was[j];
      }
    }

    method PopFront() returns (e: Element<K, V>)
      requires Valid() && entryList != []
      modifies this
      ensures Valid() && size == old(size) && e == old(entryList)[0] && entryList == old(entryList)[1..]
      ensures e !in entryList && entryMap == old(entryMap) - {e.key} && Contents() == old(Contents())[1..]
    {
      e := entryList[0];
      ghost var was, contents := entryList, Contents();
      UnlinkAt(0);
      assert was[..0] + was[1..] == was[1..] && contents[..0] + contents[1..] == contents[1..];
    }

    method Resize()
      requires Valid()
      modifies this
      ensures Valid() && size == SizeOf(old(size)) && entryList == Newest(old(entryList), size)
      ensures Contents() == Newest(old(Contents()), size)
    {
      if size <= 0 {
        size := 1;
      }
      while |entryList| > size
        invariant Valid() && size == SizeOf(old(size))
        invariant Shrunk(old(entryList), old(Contents()), entryList, Contents())
        invariant |entryList| < |old(entryList)| ==> size <= |entryList|
      {
        ShrunkMore(old(entryList), old(Contents()), entryList, Contents());
        DropFront();
      }
    }

    method DropFront()
      requires Valid() && entryList != []
      modifies this
      ensures Valid() && size == old(size) && entryList == old(entryList)[1..] && Contents() == old(Contents())[1..]
    {
      var _ := PopFront();
    }

    method Unlink(key: K) returns (e: Element<K, V>)
      requires Valid() && key in entryMap
      modifies this
      ensures Valid() && size == old(size) && e == old(entryMap)[key] && e !in entryList && key !in entryMap
      ensures forall x | x in entryList :: x in old(entryList)
      ensures Contents() == Without(old(Contents()), key)
    {
      e := entryMap[key];
      var i :| 0 <= i < |entryList| && entryList[i] == e;
      ghost var was := Contents();
      assert Distinct(was) && was[i].key == key by { ContentsDistinct(); }
      UnlinkAt(i);
      WithoutAt(was, i);
    }

    method PushBack(e: Element<K, V>)
      requires Valid() && e !in entryList && e.key !in entryMap
      modifies this
      ensures Valid() && size == old(size) && entryList == old(entryList) + [e]
      ensures Contents() == old(Contents()) + [Entry(e.key, e.value)]
    {
      entryList := entryList + [e];
      entryMap := entryMap[e.key := e];
    }

    method Refresh(key: K, value: V)
      requires Valid() && key in entryMap
      modifies this, entryList
      ensures Valid() && size == old(size) && (forall e | e in entryList :: e in old(entryList))
      ensures Contents() == Without(old(Contents()), key) + [Entry(key, value)]
    {
      var e := Unlink(key);
      e.value := value;
      PushBack(e);
    }

    // The least recently used element is given the new key and value.
    method Reuse(key: K, value: V)
      requires Valid() && key !in entryMap && entryList != []
      modifies this, entryList
      ensures Valid() && size == old(size) && (forall e | e in entryList :: e in old(entryList))
      ensures Contents() == old(Contents())[1..] + [Entry(key, value)]
    {
      var e := PopFront();
      e.key, e.value := key, value;
      PushBack(e);
    }

    method Insert(key: K, value: V)
      requires Valid() && key !in entryMap
      modifies this
      ensures Valid() && size == old(size) && |entryList| == |old(entryList)| + 1 &&
              entryList[..|old(entryList)|] == old(entryList)
      ensures fresh(entryList[|old(entryList)|]) && Contents() == old(Contents()) + [Entry(key, value)]
    {
      var e := new Element(key, value);
      PushBack(e);
    }

    // Put on a cache that is within its size.
    method PutKept(key: K, value: V)
      requires Valid() && 0 < size && |entryList| <= size
      modifies this, entryList
      ensures Valid() && size == old(size) && (forall e | e in entryList :: e in old(entryList) || fresh(e))
      ensures Contents() == AfterPut(old(Contents()), size, key, value)
    {
      ContentsDistinct();
      PutCases(Contents(), size, key, value);
      if key in entryMap {
        Refresh(key, value);
      } else if |entryList| >= size {
        Reuse(key, value);
      } else {
        Insert(key, value);
      }
    }

    method Put(key: K, value: V)
      requires Valid()
      modifies this, entryList
      ensures Valid() && Contents() == AfterPut(old(Contents()), old(size), key, value) && size == SizeOf(old(size))
      ensures forall e | e in entryList :: e in old(entryList) || fresh(e)
    {
      Resize();
      PutKept(key, value);
    }

    method Get(key: K) returns (r: Option<V>)
      requires Valid()
      modifies this
      ensures Valid() && Contents() == AfterGet(old(Contents()), old(size), key) && size == SizeOf(old(size))
      ensures r == ValueOf(Newest(old(Contents()), SizeOf(old(size))), key)
    {
      Resize();
      ContentsDistinct();
      WithoutKeepsOthers(Contents(), key, key);
      if key in entryMap {
        ValueIsStored(key);
        var e := Unlink(key);
        PushBack(e);
        return Some(e.value);
      }
      return None;
    }

    lemma ValueIsStored(key: K)
      requires Valid() && key in entryMap
      ensures ValueOf(Contents(), key) == Some(entryMap[key].value)
    {
      ContentsDistinct();
      var i :| 0 <= i < |entryList| && entryList[i] == entryMap[key];
      WithoutAt(Contents(), i);
    }

    method Evict(key: K)
      requires Valid()
      modifies this
      ensures Valid() && Contents() == AfterEvict(old(Contents()), old(size), key) && size == SizeOf(old(size))
    {
      Resize();
      ContentsDistinct();
      WithoutDistinct(Contents(), key);
      if key in entryMap {
        var _ := Unlink(key);
      }
    }

    method Flush()
      requires Valid()
      modifies this
      ensures Valid() && Contents() == [] && size == SizeOf(old(size))
    {
      if size <= 0 {
        size := 1;
      }
      entryMap, entryList := map[], [];
    }
  }
}
