/**
 chains/atomic/state.go: the state over its two databases. Elements are marshalled into the value
 database and each trait has its own linked list, under the trait's prefix, in the index database.
 Reads and writes may fail; module Mailbox says what the operations do when they do not.
 */
module AtomicState {
  import opened Wrappers
  import opened Bytes
  import opened Database
  import opened Entries
  import opened LinkedList
  import opened Spec = Mailbox
  import opened NodeCodec
  import opened Pagination
  import ElementCodec
  import Lists = LinkedDB

  // linkeddb.NewDefault's cache size
  const LIST_CACHE_SIZE := 1024

  function StoreOf(indexDB: map<Trait, Store>, t: Trait): Store {
    if t in indexDB then indexDB[t] else map[]
  }

  // Each key holds its marshalled element.
  ghost predicate ValuesStored(valueDB: Store, values: map<Key, DbElement>) {
    && valueDB.Keys == values.Keys
    && forall k | k in valueDB :: ElementCodec.Encoded(values[k]) == Ok(valueDB[k])
  }

  // Each trait's prefix holds its list.
  ghost predicate ListsStored(indexDB: map<Trait, Store>, index: map<Trait, List>) {
    forall t {:trigger TraitList(index, t)} :: Represents(FORMAT, StoreOf(indexDB, t), TraitList(index, t))
  }

  // All keys are short enough for their list nodes to be marshalled.
  ghost predicate ShortKeys(l: List) {
    forall i | 0 <= i < |l| :: |l[i].key| <= SMALL && l[i].value == []
  }

  ghost predicate AllShort(index: map<Trait, List>) {
    forall t {:trigger TraitList(index, t)} :: ShortKeys(TraitList(index, t))
  }

  lemma ShortKeysEncode(l: List)
    requires ShortKeys(l)
    ensures Lists.Encodes(FORMAT, l)
  {
    forall i | 0 <= i < |l|
      ensures FORMAT.encode(NodeAt(l, i)).Some?
    {
      SmallNodesEncode(NodeAt(l, i));
    }
  }

  lemma PutShort(l: List, key: Key)
    requires ShortKeys(l) && |key| <= SMALL
    ensures ShortKeys(ListPut(l, key, []))
  {
  }

  lemma {:induction false} DeleteShort(l: List, key: Key)
    requires ShortKeys(l)
    ensures ShortKeys(ListDelete(l, key))
  {
    if l != [] {
      DeleteShort(l[..|l| - 1], key);
    }
  }

  lemma ListStored(indexDB: map<Trait, Store>, index: map<Trait, List>, t: Trait, db: Store, l: List)
    requires ListsStored(indexDB, index) && Represents(FORMAT, db, l)
    ensures ListsStored(indexDB[t := db], SetList(index, t, l))
    ensures AllShort(index) && ShortKeys(l) ==> AllShort(SetList(index, t, l))
  {
    forall u
      ensures TraitList(SetList(index, t, l), u) == if u == t then l else TraitList(index, u)
      ensures Represents(FORMAT, StoreOf(indexDB[t := db], u), TraitList(SetList(index, t, l), u))
    {
      assert Represents(FORMAT, StoreOf(indexDB, u), TraitList(index, u));
    }
  }

  class State {
    // Whether the databases may report errors.
    const flaky: bool
    var valueDB: Store
    var indexDB: map<Trait, Store>

    ghost var m: Spec.Mailbox

    constructor (flaky: bool)
      ensures Valid() && m == EMPTY && this.flaky == flaky
    {
      this.flaky := flaky;
      valueDB, indexDB, m := map[], map[], EMPTY;
    }

    ghost predicate Valid()
      reads this
    {
      ValuesStored(valueDB, m.values) && ListsStored(indexDB, m.index)
    }

    method Faults() returns (failed: bool)
      ensures failed ==> flaky
    {
      if * {
        failed := flaky;
      } else {
        failed := false;
      }
    }

    method LoadValue(key: Key) returns (r: Result<DbElement, Error>)
      requires Valid()
      ensures r.Ok? ==> key in m.values && r.value == m.values[key]
      ensures r.Err? ==> r.error == NotFound || r.error == Error.Database
      ensures r == Err(NotFound) ==> key !in m.values
      ensures r == Err(Error.Database) ==> flaky
    {
      var failed := Faults();
      if failed {
        return Err(Error.Database);
      }
      if key !in valueDB {
        return Err(NotFound);
      }
      assert ElementCodec.Encoded(m.values[key]) == Ok(valueDB[key]);
      ElementCodec.MarshalsExactly(m.values[key]);
      ElementCodec.ElementRoundTrips(m.values[key]);
      return Ok(ElementCodec.Decoded(valueDB[key]).value);
    }

    method Value(key: Key) returns (r: Result<Element, Error>)
      requires Valid()
      ensures r == Spec.Value(m, key) || (flaky && r == Err(Error.Database))
    {
      var value := LoadValue(key);
      if value.Err? {
        return Err(value.error);
      }
      if !value.value.present {
        return Err(NotFound);
      }
      return Ok(Element(key, value.value.value, value.value.traits));
    }

    method Write(key: Key, e: DbElement) returns (r: Result<(), Error>)
      requires Valid()
      modifies `valueDB, `m
      ensures Valid()
      ensures r.Ok? ==> Marshals(e) && m == old(m).(values := old(m).values[key := e])
      ensures r.Err? ==> m == old(m) && (r.error == TooLarge || (r.error == Error.Database && flaky))
      ensures r == Err(TooLarge) ==> !Marshals(e)
    {
      var valueBytes := ElementCodec.Encoded(e);
      ElementCodec.MarshalsExactly(e);
      if valueBytes.Err? {
        return Err(TooLarge);
      }
      var failed := Faults();
      if failed {
        return Err(Error.Database);
      }
      valueDB := valueDB[key := valueBytes.value];
      m := m.(values := m.values[key := e]);
      return Ok(());
    }

    method Erase(key: Key) returns (r: Result<(), Error>)
      requires Valid()
      modifies `valueDB, `m
      ensures Valid()
      ensures r.Ok? ==> m == old(m).(values := old(m).values - {key})
      ensures r.Err? ==> m == old(m) && r.error == Error.Database && flaky
    {
      var failed := Faults();
      if failed {
        return Err(Error.Database);
      }
      valueDB := valueDB - {key};
      m := m.(values := m.values - {key});
      return Ok(());
    }

    // Opens the list of a trait.
    method TraitListOf(t: Trait) returns (l: Lists.LinkedDB)
      requires Valid()
      ensures fresh(l) && l.Valid() && l.list == TraitList(m.index, t) && l.format == FORMAT && l.flaky == flaky
    {
      FormatRoundTrips();
      assert Represents(FORMAT, StoreOf(indexDB, t), TraitList(m.index, t));
      l := new Lists.LinkedDB(FORMAT, LIST_CACHE_SIZE, flaky, StoreOf(indexDB, t), TraitList(m.index, t));
    }

    method Index(t: Trait, key: Key) returns (ok: bool)
      requires Valid()
      modifies `indexDB, `m
      ensures Valid()
      ensures m == if ok then old(m).(index := SetList(old(m).index, t, ListPut(TraitList(old(m).index, t), key, [])))
              else old(m)
      ensures AllShort(old(m).index) && |key| <= SMALL ==> AllShort(m.index) && (!flaky ==> ok)
    {
      var l := TraitListOf(t);
      ghost var was := l.list;
      if AllShort(m.index) && |key| <= SMALL {
        PutShort(was, key);
        ShortKeysEncode(ListPut(was, key, []));
      }
      ok := l.Put(key, []);
      if ok {
        ListStored(indexDB, m.index, t, l.db, l.list);
        indexDB := indexDB[t := l.db];
        m := m.(index := SetList(m.index, t, l.list));
      }
    }

    method Unindex(t: Trait, key: Key) returns (ok: bool)
      requires Valid()
      modifies `indexDB, `m
      ensures Valid()
      ensures m == if ok then old(m).(index := SetList(old(m).index, t, ListDelete(TraitList(old(m).index, t), key)))
              else old(m)
      ensures AllShort(old(m).index) ==> AllShort(m.index) && (!flaky ==> ok)
    {
      var l := TraitListOf(t);
      ghost var was := l.list;
      if AllShort(m.index) {
        DeleteShort(was, key);
        ShortKeysEncode(ListDelete(was, key));
      }
      ok := l.Delete(key);
      if ok {
        ListStored(indexDB, m.index, t, l.db, l.list);
        indexDB := indexDB[t := l.db];
        m := m.(index := SetList(m.index, t, l.list));
      }
    }

    // The first n traits are indexed; all of them unless there is an error.
    method IndexTraits(traits: seq<Trait>, key: Key) returns (ok: bool, ghost n: nat)
      requires Valid()
      modifies `indexDB, `m
      ensures Valid() && n <= |traits| && (ok ==> n == |traits|)
      ensures m == old(m).(index := IndexAll(old(m).index, traits[..n], key))
      ensures AllShort(old(m).index) && |key| <= SMALL ==> AllShort(m.index) && (!flaky ==> ok)
    {
      for i := 0 to |traits|
        invariant Valid()
        invariant m == old(m).(index := IndexAll(old(m).index, traits[..i], key))
        invariant AllShort(old(m).index) && |key| <= SMALL ==> AllShort(m.index)
      {
        assert traits[..i + 1][..i] == traits[..i];
        ok := Index(traits[i], key);
        if !ok {
          return false, i;
        }
      }
      return true, |traits|;
    }

    method UnindexTraits(traits: seq<Trait>, key: Key) returns (ok: bool, ghost n: nat)
      requires Valid()
      modifies `indexDB, `m
      ensures Valid() && n <= |traits| && (ok ==> n == |traits|)
      ensures m == old(m).(index := UnindexAll(old(m).index, traits[..n], key))
      ensures AllShort(old(m).index) ==> AllShort(m.index) && (!flaky ==> ok)
    {
      for i := 0 to |traits|
        invariant Valid()
        invariant m == old(m).(index := UnindexAll(old(m).index, traits[..i], key))
        invariant AllShort(old(m).index) ==> AllShort(m.index)
      {
        assert traits[..i + 1][..i] == traits[..i];
        ok := Unindex(traits[i], key);
        if !ok {
          return false, i;
        }
      }
      return true, |traits|;
    }

    // On success the mailbox is the one after SetValue. On an error some of the traits may be indexed
    // and no value has changed. Without database errors, and with short keys, it succeeds exactly when
    // the mailbox operation does.
    method SetValue(e: Element) returns (r: Result<(), Error>)
      requires Valid()
      modifies `valueDB, `indexDB, `m
      ensures Valid()
      ensures r.Ok? ==> Spec.SetValue(old(m), e) == Ok(m)
      ensures r.Err? ==> exists n | 0 <= n <= |e.traits| ::
                m == old(m).(index := IndexAll(old(m).index, e.traits[..n], e.key))
      ensures r == Err(Duplicated) || r == Err(TooLarge) ==> Spec.SetValue(old(m), e) == Err(r.error)
      ensures !flaky && AllShort(old(m).index) && |e.key| <= SMALL ==>
                AllShort(m.index) && (r.Ok? <==> Spec.SetValue(old(m), e).Ok?)
    {
      ghost var before := m;
      assert before == before.(index := IndexAll(before.index, e.traits[..0], e.key));
      var value := LoadValue(e.key);
      if value.Ok? {
        if value.value.present {
          return Err(Duplicated);
        }
        r := Erase(e.key);
        return;
      }
      if value.error != NotFound {
        return Err(value.error);
      }
      var indexed, n := IndexTraits(e.traits, e.key);
      if !indexed {
        return Err(Error.Database);
      }
      assert e.traits[..|e.traits|] == e.traits;
      r := Write(e.key, Spec.Stored(e));
    }

    method RemoveValue(key: Key) returns (r: Result<(), Error>)
      requires Valid()
      modifies `valueDB, `indexDB, `m
      ensures Valid()
      ensures r.Ok? ==> Spec.RemoveValue(old(m), key) == Ok(m)
      ensures r.Err? && m != old(m) ==> key in old(m).values
      ensures r.Err? && m != old(m) ==>
                exists n | 0 <= n <= |old(m).values[key].traits| ::
                  m == old(m).(index := UnindexAll(old(m).index, old(m).values[key].traits[..n], key))
      ensures r == Err(Duplicated) ==> Spec.RemoveValue(old(m), key) == Err(Duplicated)
      ensures !flaky && AllShort(old(m).index) ==> AllShort(m.index) && (r.Ok? <==> Spec.RemoveValue(old(m), key).Ok?)
    {
      ghost var before := m;
      var value := LoadValue(key);
      if value.Err? {
        if value.error != NotFound {
          return Err(value.error);
        }
        assert TraitsSize([]) == 0;
        r := Write(key, TOMBSTONE);
        return;
      }
      if !value.value.present {
        return Err(Duplicated);
      }
      var traits := value.value.traits;
      var unindexed, n := UnindexTraits(traits, key);
      if !unindexed {
        return Err(Error.Database);
      }
      assert traits[..|traits|] == traits;
      r := Erase(key);
    }

    // One trait's keys, from startKey on, while there is room. If the lookup of startKey failed they are
    // collected from the head of the list on.
    method AppendTraitKeys(p: Page, t: Trait, startKey: Key) returns (q: Page, ok: bool, ghost failed: bool)
      requires Valid()
      ensures ok ==> q == Collected(m.index, t, startKey, failed, p)
      ensures !flaky ==> ok && !failed
    {
      var l := TraitListOf(t);
      var it := new Lists.Iterator.WithStart(l, startKey);
      failed := it.Remaining() != Lists.From(l.list, startKey);
      q, ok := Drain(it, t, p.(lastTrait := t, lastKey := startKey));
    }

    method Drain(it: Lists.Iterator, t: Trait, p: Page) returns (q: Page, ok: bool)
      requires it.Valid() && !it.failed && p.lastTrait == t
      modifies it, it.ldb`headKeyIsSynced, it.ldb`headKeyExists, it.ldb`headKey, it.ldb`nodeCache
      ensures ok ==> q == Collect(p, Visits(t, old(it.Remaining())))
      ensures !ok ==> it.ldb.flaky
    {
      q := p;
      ghost var remaining := it.Remaining();
      ghost var all := Collect(q, Visits(t, remaining));
      var more := it.Next();
      while more && q.left > 0
        invariant it.Valid() && (it.failed ==> it.ldb.flaky)
        invariant q.lastTrait == t
        invariant if more then remaining != [] && it.key == remaining[0].key && it.Remaining() == remaining[1..]
                  else it.failed || remaining == []
        invariant Collect(q, Visits(t, remaining)) == all
        decreases |remaining|
      {
        CollectNext(q, t, remaining);
        if it.key in q.keys {
          q := q.(lastKey := it.key);
        } else {
          q := Page(q.keys + [it.key], t, it.key, q.left - 1);
        }
        remaining := remaining[1..];
        more := it.Next();
      }
      ok := !it.failed;
    }

    // getKeys: the page and cursor of Pagination.GetKeys, unless lookups fail.
    method GetKeys(traits: seq<Trait>, startTrait: Trait, startKey: Key, limit: int) returns (page: Page, ok: bool)
      requires Valid()
      ensures !flaky ==> ok && page == Pagination.GetKeys(m.index, traits, startTrait, startKey, limit)
      ensures ok ==> MayReturn(m.index, traits, startTrait, startKey, limit, page)
    {
      page := Page([], startTrait, startKey, limit);
      var start := startKey;
      var sorted := SortedTraits(traits);
      for i := 0 to |sorted|
        invariant !flaky ==>
          Pagination.GetKeys(m.index, traits, startTrait, startKey, limit) ==
              Scan(m.index, sorted[i..], startTrait, start, page)
        invariant Reaches(m.index, sorted, startTrait, startKey, Page([], startTrait, startKey, limit), i, start, page)
      {
        ghost var first := Page([], startTrait, startKey, limit);
        if Less(sorted[i], startTrait) {
          ReachesPast(m.index, sorted, startTrait, startKey, first, i, start, page);
        } else {
          ghost var before, from, failed := page, start, false;
          if Less(startTrait, sorted[i]) {
            start := [];
          }
          page, ok, failed := AppendTraitKeys(page, sorted[i], start);
          if !ok {
            return;
          }
          ReachesNext(m.index, sorted, startTrait, startKey, first, i, from, before, failed);
          if page.left == 0 {
            return;
          }
        }
      }
      ok := true;
    }

    // The loop of Get and Indexed over the keys.
    method Values(keys: seq<Key>) returns (r: Result<seq<bytes>, Error>)
      requires Valid()
      ensures r == ValuesOf(m, keys) || (flaky && r == Err(Error.Database))
    {
      var values: seq<bytes> := [];
      for i := 0 to |keys|
        invariant ValuesOf(m, keys[..i]) == Ok(values)
      {
        assert keys[..i + 1][..i] == keys[..i];
        var e := Value(keys[i]);
        if e.Err? {
          if Spec.Value(m, keys[i]).Err? {
            StuckAt(m, keys, i + 1);
          }
          return Err(e.error);
        }
        values := values + [e.value.value];
      }
      assert keys[..|keys|] == keys;
      return Ok(values);
    }

    // Indexed: the values of a page of keys and the cursor. In a state reached by puts and removes it
    // fails only if the database does.
    method Indexed(traits: seq<Trait>, startTrait: Trait, startKey: Key, limit: int)
      returns (r: Result<(seq<bytes>, Trait, Key), Error>)
      requires Valid()
      ensures !flaky ==> var page := Pagination.GetKeys(m.index, traits, startTrait, startKey, limit);
                match ValuesOf(m, page.keys)
                case Err(e) => r == Err(e)
                case Ok(values) => r == Ok((values, page.lastTrait, page.lastKey))
      ensures r.Ok? ==> exists page | MayReturn(m.index, traits, startTrait, startKey, limit, page) ::
                          ValuesOf(m, page.keys) == Ok(r.value.0) && r.value.1 == page.lastTrait &&
                              r.value.2 == page.lastKey
      ensures IndexOk(m) && r.Err? ==> flaky && r == Err(Error.Database)
    {
      var page, ok := GetKeys(traits, startTrait, startKey, limit);
      if !ok {
        return Err(Error.Database);
      }
      if IndexOk(m) {
        ReturnedPresent(m, traits, startTrait, startKey, limit, page);
      }
      var values := Values(page.keys);
      if values.Err? {
        return Err(values.error);
      }
      return Ok((values.value, page.lastTrait, page.lastKey));
    }
  }

  lemma {:induction false} StuckAt(m: Spec.Mailbox, keys: seq<Key>, n: nat)
    requires n <= |keys| && ValuesOf(m, keys[..n]).Err?
    ensures ValuesOf(m, keys) == ValuesOf(m, keys[..n])
  {
    if n == |keys| {
      assert keys[..n] == keys;
    } else {
      assert keys[..|keys| - 1][..n] == keys[..n];
      StuckAt(m, keys[..|keys| - 1], n);
    }
  }
}
