/**
 chains/atomic/state.go: paginated lookup of keys by trait (getKeys and appendTraitKeys) as functions,
 and what following the returned cursor from page to page covers.
 */
module Pagination {
  import opened Wrappers
  import opened Bytes
  import opened Entries
  import opened LinkedList
  import opened Mailbox
  import opened Sorting
  import Lists = LinkedDB

  // One step of the iteration: a key found in a trait's list.
  datatype Visit = Visit(under: Trait, key: Key)

  // The keys found so far, the cursor, and how many keys may still be added.
  datatype Page = Page(keys: seq<Key>, lastTrait: Trait, lastKey: Key, left: int)

  function Found(p: Page, v: Visit): Page {
    if v.key in p.keys then p.(lastTrait := v.under, lastKey := v.key)
    else Page(p.keys + [v.key], v.under, v.key, p.left - 1)
  }

  // Visits in order until the limit is reached.
  function Collect(p: Page, visits: seq<Visit>): Page
    decreases |visits|
  {
    if visits == [] || p.left <= 0 then p else Collect(Found(p, visits[0]), visits[1..])
  }

  function Visits(t: Trait, l: List): seq<Visit> {
    seq(|l|, i requires 0 <= i < |l| => Visit(t, l[i].key))
  }

  lemma CollectNext(p: Page, t: Trait, l: List)
    requires l != [] && p.left > 0
    ensures Collect(p, Visits(t, l)) == Collect(Found(p, Visit(t, l[0].key)), Visits(t, l[1..]))
  {
    assert Visits(t, l)[1..] == Visits(t, l[1..]);
  }

  // A nil start key is the empty key: iteration starts there if the list has it, else at the head.
  function StartIn(t: Trait, startTrait: Trait, startKey: Key): Key {
    if Less(startTrait, t) then [] else startKey
  }

  ghost function Block(index: map<Trait, List>, t: Trait, start: Key): seq<Visit> {
    Visits(t, Lists.From(TraitList(index, t), start))
  }

  // The loop of getKeys over sorted traits.
  ghost function Scan(index: map<Trait, List>, ts: seq<Trait>, startTrait: Trait, startKey: Key, p: Page): Page {
    if ts == [] then p
    else if Less(ts[0], startTrait) then Scan(index, ts[1..], startTrait, startKey, p)
    else
      var start := StartIn(ts[0], startTrait, startKey);
      var q := Collect(p.(lastTrait := ts[0], lastKey := start), Block(index, ts[0], start));
      if q.left == 0 then q else Scan(index, ts[1..], startTrait, start, q)
  }

  function SortedTraits(traits: seq<Trait>): seq<Trait> {
    Sort(traits, NotAfter)
  }

  ghost function GetKeys(index: map<Trait, List>, traits: seq<Trait>, startTrait: Trait, startKey: Key,
                         limit: int): Page {
    Scan(index, SortedTraits(traits), startTrait, startKey, Page([], startTrait, startKey, limit))
  }

  // ---------- Repeated traits ----------

  function Dedup(ts: seq<Trait>): seq<Trait> {
    if |ts| < 2 then ts else (if ts[0] == ts[1] then [] else [ts[0]]) + Dedup(ts[1..])
  }

  ghost predicate Increasing(ts: seq<Trait>) {
    forall i, j | 0 <= i < j < |ts| :: Less(ts[i], ts[j])
  }

  lemma {:induction false} DedupMembers(ts: seq<Trait>, t: Trait)
    ensures t in Dedup(ts) <==> t in ts
  {
    if |ts| >= 2 {
      DedupMembers(ts[1..], t);
      assert ts == [ts[0]] + ts[1..];
    }
  }

  lemma {:induction false} DedupIncreasing(ts: seq<Trait>)
    requires Ordered(ts, NotAfter)
    ensures Increasing(Dedup(ts))
  {
    if |ts| >= 2 {
      DedupIncreasing(ts[1..]);
      var rest := Dedup(ts[1..]);
      if ts[0] != ts[1] {
        forall j | 0 <= j < |rest|
          ensures Less(ts[0], rest[j])
        {
          DedupMembers(ts[1..], rest[j]);
          var i :| 1 <= i < |ts| && ts[i] == rest[j];
          LessTotal(ts[0], ts[1]);
          LessTotal(ts[1], ts[i]);
          assert i == 1 || NotAfter(ts[1], ts[i]);
          if Less(ts[1], ts[i]) { LessTransitive(ts[0], ts[1], ts[i]); }
        }
      }
    }
  }

  ghost predicate Visited(visits: seq<Visit>, k: Key) {
    exists i | 0 <= i < |visits| :: visits[i].key == k
  }

  // Visits to keys already collected only move the cursor.
  lemma {:induction false} CollectOld(p: Page, visits: seq<Visit>)
    requires p.left > 0 && forall i | 0 <= i < |visits| :: visits[i].key in p.keys
    ensures Collect(p, visits) == if visits == [] then p
            else p.(lastTrait := visits[|visits| - 1].under, lastKey := visits[|visits| - 1].key)
    decreases |visits|
  {
    if visits != [] {
      CollectOld(Found(p, visits[0]), visits[1..]);
    }
  }

  // With room left at the end everything was visited.
  lemma {:induction false} CollectAll(p: Page, visits: seq<Visit>)
    requires p.left > 0 && Collect(p, visits).left > 0
    ensures var q := Collect(p, visits);
            && (forall k :: k in q.keys <==> k in p.keys || Visited(visits, k))
            && (visits != [] ==> q.lastTrait == visits[|visits| - 1].under && q.lastKey == visits[|visits| - 1].key)
            && (visits == [] ==> q == p)
    decreases |visits|
  {
    if visits != [] {
      var p1 := Found(p, visits[0]);
      CollectAll(p1, visits[1..]);
      VisitedSplit(visits, 1);
    }
  }

  lemma VisitedSplit(visits: seq<Visit>, n: nat)
    requires n <= |visits|
    ensures forall k :: Visited(visits, k) <==> Visited(visits[..n], k) || Visited(visits[n..], k)
    ensures n == 1 ==> forall k :: Visited(visits[..n], k) <==> k == visits[0].key
  {
    forall k
      ensures Visited(visits, k) <==> Visited(visits[..n], k) || Visited(visits[n..], k)
    {
      if Visited(visits, k) {
        var i :| 0 <= i < |visits| && visits[i].key == k;
        if i < n {
          assert visits[..n][i].key == k;
        } else {
          assert visits[n..][i - n].key == k;
        }
      }
    }
    if n == 1 {
      assert visits[..1][0].key == visits[0].key;
    }
  }

  lemma TwiceTheSame(index: map<Trait, List>, t: Trait, rest: seq<Trait>, startTrait: Trait, startKey: Key, p: Page)
    ensures Scan(index, [t, t] + rest, startTrait, startKey, p) == Scan(index, [t] + rest, startTrait, startKey, p)
  {
    assert ([t, t] + rest)[1..] == [t] + rest && ([t] + rest)[1..] == rest;
    if !Less(t, startTrait) {
      var start := StartIn(t, startTrait, startKey);
      var p0, block := p.(lastTrait := t, lastKey := start), Block(index, t, start);
      var q := Collect(p0, block);
      if q.left > 0 {
        CollectAll(p0, block);
        assert forall i | 0 <= i < |block| :: Visited(block, block[i].key);
        CollectOld(q.(lastTrait := t, lastKey := start), block);
      } else if p.left > 0 {
        NeverNegative(p0, block);
      }
      assert q.left != 0 ==> Collect(q.(lastTrait := t, lastKey := start), block) == q;
    }
  }

  lemma {:induction false} NeverNegative(p: Page, visits: seq<Visit>)
    requires p.left >= 0
    ensures Collect(p, visits).left >= 0
    decreases |visits|
  {
    if visits != [] && p.left > 0 {
      NeverNegative(Found(p, visits[0]), visits[1..]);
    }
  }

  // Asking for a trait twice changes nothing.
  lemma {:induction false} RepeatedTraitsHarmless(index: map<Trait, List>, ts: seq<Trait>, startTrait: Trait,
                                                  startKey: Key, p: Page)
    ensures Scan(index, ts, startTrait, startKey, p) == Scan(index, Dedup(ts), startTrait, startKey, p)
    decreases |ts|
  {
    if |ts| >= 2 {
      var rest := ts[1..];
      if ts[0] == ts[1] {
        assert ts == [ts[0], ts[0]] + ts[2..] && rest == [ts[0]] + ts[2..];
        assert Dedup(ts) == Dedup(rest);
        TwiceTheSame(index, ts[0], ts[2..], startTrait, startKey, p);
        RepeatedTraitsHarmless(index, rest, startTrait, startKey, p);
      } else {
        assert Dedup(ts)[1..] == Dedup(rest) && Dedup(ts)[0] == ts[0];
        if Less(ts[0], startTrait) {
          RepeatedTraitsHarmless(index, rest, startTrait, startKey, p);
        } else {
          var start := StartIn(ts[0], startTrait, startKey);
          RepeatedTraitsHarmless(index, rest, startTrait, start,
                                 Collect(p.(lastTrait := ts[0], lastKey := start), Block(index, ts[0], start)));
        }
      }
    }
  }

  // ---------- The visits that remain at a cursor ----------

  ghost function Tail(index: map<Trait, List>, ts: seq<Trait>, startTrait: Trait, startKey: Key): seq<Visit> {
    if ts == [] then []
    else if Less(ts[0], startTrait) then Tail(index, ts[1..], startTrait, startKey)
    else
      var start := StartIn(ts[0], startTrait, startKey);
      Block(index, ts[0], start) + Tail(index, ts[1..], startTrait, start)
  }

  predicate SameKeys(p: Page, q: Page) {
    p.keys == q.keys && p.left == q.left
  }

  lemma {:induction false} CollectConcat(p: Page, u: seq<Visit>, v: seq<Visit>)
    ensures Collect(p, u + v) == Collect(Collect(p, u), v)
    decreases |u|
  {
    if u == [] {
      assert u + v == v;
    } else if p.left > 0 {
      assert (u + v)[1..] == u[1..] + v;
      CollectConcat(Found(p, u[0]), u[1..], v);
    }
  }

  lemma {:induction false} CollectSame(p: Page, q: Page, visits: seq<Visit>)
    requires SameKeys(p, q) && p.left > 0
    ensures SameKeys(Collect(p, visits), Collect(q, visits))
    ensures Collect(p, visits).left == 0 ==> Collect(p, visits) == Collect(q, visits)
    decreases |visits|
  {
    if visits != [] && Found(p, visits[0]).left > 0 {
      CollectSame(Found(p, visits[0]), Found(q, visits[0]), visits[1..]);
    }
  }

  // Trait by trait or in one go, the same keys are found; a full page also has the same cursor.
  lemma {:induction false} ScanCollects(index: map<Trait, List>, ts: seq<Trait>, startTrait: Trait, startKey: Key,
                                        p: Page, p': Page)
    requires SameKeys(p, p') && p.left > 0
    ensures var q, q' := Scan(index, ts, startTrait, startKey, p), Collect(p', Tail(index, ts, startTrait, startKey));
            SameKeys(q, q') && (q.left == 0 ==> q == q')
    decreases |ts|
  {
    if ts != [] {
      if Less(ts[0], startTrait) {
        ScanCollects(index, ts[1..], startTrait, startKey, p, p');
      } else {
        var start := StartIn(ts[0], startTrait, startKey);
        var block, rest := Block(index, ts[0], start), Tail(index, ts[1..], startTrait, start);
        var p0 := p.(lastTrait := ts[0], lastKey := start);
        var q, q' := Collect(p0, block), Collect(p', block);
        CollectSame(p0, p', block);
        CollectConcat(p', block, rest);
        NeverNegative(p0, block);
        if q.left != 0 {
          ScanCollects(index, ts[1..], startTrait, start, q, q');
        }
      }
    }
  }

  lemma {:induction false} TailTraits(index: map<Trait, List>, ts: seq<Trait>, startTrait: Trait, startKey: Key, j: nat)
    requires j < |Tail(index, ts, startTrait, startKey)|
    ensures Tail(index, ts, startTrait, startKey)[j].under in ts
    decreases |ts|
  {
    if !Less(ts[0], startTrait) {
      var start := StartIn(ts[0], startTrait, startKey);
      var n := |Block(index, ts[0], start)|;
      if j >= n {
        TailTraits(index, ts[1..], startTrait, start, j - n);
      }
    } else {
      TailTraits(index, ts[1..], startTrait, startKey, j);
    }
  }

  ghost predicate AllAfter(ts: seq<Trait>, t: Trait) {
    forall i | 0 <= i < |ts| :: Less(t, ts[i])
  }

  lemma {:induction false} TailPast(index: map<Trait, List>, ts: seq<Trait>, t: Trait, k: Key, t': Trait, k': Key)
    requires AllAfter(ts, t) && AllAfter(ts, t')
    ensures Tail(index, ts, t, k) == Tail(index, ts, t', k')
    decreases |ts|
  {
    if ts != [] {
      LessNotBoth(t, ts[0]);
      LessNotBoth(t', ts[0]);
      TailPast(index, ts[1..], t, [], t', []);
    }
  }

  lemma LessNotBoth(a: bytes, b: bytes)
    requires Less(a, b)
    ensures !Less(b, a) && a != b
  {
    if Less(b, a) { LessTransitive(a, b, a); }
    LessIrreflexive(a);
  }

  lemma FromFrom(l: List, start: Key, j: nat)
    requires Distinct(l) && j < |Lists.From(l, start)|
    ensures Lists.From(l, Lists.From(l, start)[j].key) == Lists.From(l, start)[j..]
  {
    var at := if Has(l, start) then Lists.At(l, start) else 0;
    assert l[at..] == Lists.From(l, start);
    Lists.AtIs(l, at + j);
    SliceOfSlice(l, at, j);
  }

  lemma SliceOfSlice(l: List, a: nat, b: nat)
    requires a + b <= |l|
    ensures l[a..][b..] == l[a + b..]
  {
  }

  // Resuming in the first trait's block.
  lemma TailInBlock(index: map<Trait, List>, ts: seq<Trait>, startTrait: Trait, start: Key, j: nat)
    requires ListsOk(index) && Increasing(ts) && ts != [] && !Less(ts[0], startTrait) &&
             j < |Block(index, ts[0], start)|
    ensures var block := Block(index, ts[0], start);
            Tail(index, ts, ts[0], block[j].key) == block[j..] + Tail(index, ts[1..], startTrait, start)
  {
    var k := Block(index, ts[0], start)[j].key;
    LessIrreflexive(ts[0]);
    FromFrom(TraitList(index, ts[0]), start, j);
    assert Block(index, ts[0], k) == Block(index, ts[0], start)[j..];
    AfterBoth(ts, startTrait);
    TailPast(index, ts[1..], startTrait, start, ts[0], k);
  }

  lemma TailSkips(index: map<Trait, List>, ts: seq<Trait>, startTrait: Trait, startKey: Key, j: nat)
    requires Increasing(ts) && ts != [] && j < |Tail(index, ts[1..], startTrait, startKey)|
    ensures var v := Tail(index, ts[1..], startTrait, startKey)[j];
            Tail(index, ts, v.under, v.key) == Tail(index, ts[1..], v.under, v.key)
  {
    TailTraits(index, ts[1..], startTrait, startKey, j);
  }

  ghost predicate Resumes(index: map<Trait, List>, ts: seq<Trait>, v: Visit, rest: seq<Visit>) {
    Tail(index, ts, v.under, v.key) == rest
  }

  // Resuming at a visit gives the visits from there on.
  lemma {:induction false} TailAt(index: map<Trait, List>, ts: seq<Trait>, startTrait: Trait, startKey: Key,
                                  visits: seq<Visit>, j: nat)
    requires ListsOk(index) && Increasing(ts) && visits == Tail(index, ts, startTrait, startKey) && j < |visits|
    ensures Resumes(index, ts, visits[j], visits[j..])
    decreases |ts|
  {
    if Less(ts[0], startTrait) {
      TailSkips(index, ts, startTrait, startKey, j);
      TailAt(index, ts[1..], startTrait, startKey, visits, j);
    } else {
      var start := StartIn(ts[0], startTrait, startKey);
      var block, rest := Block(index, ts[0], start), Tail(index, ts[1..], startTrait, start);
      if j < |block| {
        TailInBlock(index, ts, startTrait, start, j);
        SplitAt(block, rest, j);
      } else {
        TailSkips(index, ts, startTrait, start, j - |block|);
        TailAt(index, ts[1..], startTrait, start, rest, j - |block|);
        SplitAt(block, rest, j);
      }
    }
  }

  lemma SplitAt(a: seq<Visit>, b: seq<Visit>, j: nat)
    requires j < |a| + |b|
    ensures (a + b)[j] == (if j < |a| then a[j] else b[j - |a|])
    ensures (a + b)[j..] == (if j < |a| then a[j..] + b else b[j - |a|..])
  {
  }

  lemma AfterBoth(ts: seq<Trait>, t: Trait)
    requires Increasing(ts) && ts != [] && !Less(ts[0], t)
    ensures AllAfter(ts[1..], t) && AllAfter(ts[1..], ts[0])
  {
    forall i | 1 <= i < |ts|
      ensures Less(t, ts[i])
    {
      LessTotal(t, ts[0]);
      if Less(t, ts[0]) { LessTransitive(t, ts[0], ts[i]); }
    }
  }

  // ---------- Pages ----------

  ghost predicate NoRepeats(keys: seq<Key>) {
    forall i, j | 0 <= i < j < |keys| :: keys[i] != keys[j]
  }

  lemma {:induction false} CollectCounts(p: Page, visits: seq<Visit>)
    requires p.left >= 0
    ensures var q := Collect(p, visits);
            |q.keys| + q.left == |p.keys| + p.left && (NoRepeats(p.keys) ==> NoRepeats(q.keys))
    decreases |visits|
  {
    if visits != [] && p.left > 0 {
      CollectCounts(Found(p, visits[0]), visits[1..]);
    }
  }

  // A full page stops at the visit that filled it.
  lemma {:induction false} CollectStops(p: Page, visits: seq<Visit>) returns (j: nat)
    requires p.left > 0 && Collect(p, visits).left == 0
    ensures var q := Collect(p, visits);
            && p.left - 1 <= j < |visits| && visits[j] == Visit(q.lastTrait, q.lastKey)
            && (forall k :: k in q.keys <==> k in p.keys || Visited(visits[..j + 1], k))
    decreases |visits|
  {
    var p1 := Found(p, visits[0]);
    if p1.left == 0 {
      j := 0;
      VisitedSplit(visits, 1);
    } else {
      var j1 := CollectStops(p1, visits[1..]);
      j := j1 + 1;
      assert visits[..j + 1][1..] == visits[1..][..j1 + 1] && visits[..j + 1][0] == visits[0];
      VisitedSplit(visits[..j + 1], 1);
    }
  }

  // One page over increasing traits: its keys are distinct visited ones; a short page visits all that
  // remains, and a full one leaves a suffix.
  lemma PageMeaning(index: map<Trait, List>, ts: seq<Trait>, startTrait: Trait, startKey: Key, limit: int)
    returns (j: nat)
    requires ListsOk(index) && Increasing(ts) && limit > 0
    ensures var visits := Tail(index, ts, startTrait, startKey);
            var q := Scan(index, ts, startTrait, startKey, Page([], startTrait, startKey, limit));
            && NoRepeats(q.keys) && |q.keys| <= limit && j <= |visits|
            && (|q.keys| < limit ==> forall k :: k in q.keys <==> Visited(visits, k))
            && (|q.keys| == limit ==>
                && limit - 1 <= j < |visits| && visits[j] == Visit(q.lastTrait, q.lastKey)
                && (forall k :: k in q.keys <==> Visited(visits[..j + 1], k))
                && Tail(index, ts, q.lastTrait, q.lastKey) == visits[j..])
  {
    var visits := Tail(index, ts, startTrait, startKey);
    var p := Page([], startTrait, startKey, limit);
    ScanCollects(index, ts, startTrait, startKey, p, p);
    CollectCounts(p, visits);
    if Collect(p, visits).left == 0 {
      j := CollectStops(p, visits);
      TailAt(index, ts, startTrait, startKey, visits, j);
    } else {
      j := 0;
      NeverNegative(p, visits);
      CollectAll(p, visits);
    }
  }

  ghost function Remaining(index: map<Trait, List>, traits: seq<Trait>, startTrait: Trait, startKey: Key): seq<Visit> {
    Tail(index, Dedup(SortedTraits(traits)), startTrait, startKey)
  }

  // The same for getKeys, whatever the traits.
  lemma GetKeysMeaning(index: map<Trait, List>, traits: seq<Trait>, startTrait: Trait, startKey: Key, limit: int)
    returns (j: nat)
    requires ListsOk(index) && limit > 0
    ensures var visits := Remaining(index, traits, startTrait, startKey);
            var q := GetKeys(index, traits, startTrait, startKey, limit);
            && NoRepeats(q.keys) && |q.keys| <= limit && j <= |visits|
            && (|q.keys| < limit ==> forall k :: k in q.keys <==> Visited(visits, k))
            && (|q.keys| == limit ==>
                && limit - 1 <= j < |visits| && visits[j] == Visit(q.lastTrait, q.lastKey)
                && (forall k :: k in q.keys <==> Visited(visits[..j + 1], k))
                && Remaining(index, traits, q.lastTrait, q.lastKey) == visits[j..])
  {
    NotAfterIsOrder();
    SortOrdered(traits, NotAfter);
    DedupIncreasing(SortedTraits(traits));
    RepeatedTraitsHarmless(index, SortedTraits(traits), startTrait, startKey, Page([], startTrait, startKey, limit));
    j := PageMeaning(index, Dedup(SortedTraits(traits)), startTrait, startKey, limit);
  }

  lemma FullPageAdvances(index: map<Trait, List>, traits: seq<Trait>, startTrait: Trait, startKey: Key, limit: int)
    requires ListsOk(index) && limit >= 2
    ensures var q := GetKeys(index, traits, startTrait, startKey, limit);
            |q.keys| >= limit ==>
              |Remaining(index, traits, q.lastTrait, q.lastKey)| < |Remaining(index, traits, startTrait, startKey)|
  {
    var j := GetKeysMeaning(index, traits, startTrait, startKey, limit);
  }

  // Following the cursor until a page is shorter than the limit. This ends: every full page leaves
  // fewer visits.
  ghost function Pages(index: map<Trait, List>, traits: seq<Trait>, startTrait: Trait, startKey: Key,
                       limit: int): seq<seq<Key>>
    requires ListsOk(index) && limit >= 2
    decreases |Remaining(index, traits, startTrait, startKey)|
  {
    var q := GetKeys(index, traits, startTrait, startKey, limit);
    FullPageAdvances(index, traits, startTrait, startKey, limit);
    if |q.keys| < limit then [q.keys] else [q.keys] + Pages(index, traits, q.lastTrait, q.lastKey, limit)
  }

  ghost predicate InPages(pages: seq<seq<Key>>, k: Key) {
    exists i | 0 <= i < |pages| :: k in pages[i]
  }

  lemma InPagesCons(first: seq<Key>, rest: seq<seq<Key>>, k: Key)
    ensures InPages([first] + rest, k) <==> k in first || InPages(rest, k)
  {
    var pages := [first] + rest;
    assert pages[0] == first;
    if InPages(rest, k) {
      var i :| 0 <= i < |rest| && k in rest[i];
      assert pages[i + 1] == rest[i];
    }
  }

  // The pages cover exactly the visits at the cursor, and no page repeats a key.
  lemma {:induction false} PagesCover(index: map<Trait, List>, traits: seq<Trait>, startTrait: Trait, startKey: Key,
                                      limit: int, k: Key)
    requires ListsOk(index) && limit >= 2
    ensures var pages := Pages(index, traits, startTrait, startKey, limit);
            && (InPages(pages, k) <==> Visited(Remaining(index, traits, startTrait, startKey), k))
            && (forall i | 0 <= i < |pages| :: NoRepeats(pages[i]) && |pages[i]| <= limit)
    decreases |Remaining(index, traits, startTrait, startKey)|
  {
    var visits := Remaining(index, traits, startTrait, startKey);
    var q := GetKeys(index, traits, startTrait, startKey, limit);
    var j := GetKeysMeaning(index, traits, startTrait, startKey, limit);
    if |q.keys| == limit {
      PagesCover(index, traits, q.lastTrait, q.lastKey, limit, k);
      InPagesCons(q.keys, Pages(index, traits, q.lastTrait, q.lastKey, limit), k);
      VisitedSplit(visits, j);
      VisitedSplit(visits[..j + 1], j);
      VisitedSplit(visits[j..], 1);
      assert visits[..j + 1][..j] == visits[..j] && visits[..j + 1][j..] == [visits[j]] == visits[j..][..1];
    } else {
      assert Pages(index, traits, startTrait, startKey, limit)[0] == q.keys;
    }
  }

  // ---------- What the pages cover from the beginning ----------

  // In the list, k comes before the empty key.
  ghost predicate BeforeEmptyKey(l: List, k: Key) {
    exists i, j | 0 <= i < j < |l| :: l[i].key == k && l[j].key == []
  }

  lemma FromEmptyKey(t: Trait, l: List, k: Key)
    requires Distinct(l)
    ensures Visited(Visits(t, Lists.From(l, [])), k) <==> Has(l, k) && !BeforeEmptyKey(l, k)
  {
    var at := if Has(l, []) then Lists.At(l, []) else 0;
    assert Lists.From(l, []) == l[at..];
    var visits := Visits(t, l[at..]);
    assert forall i | at <= i < |l| :: visits[i - at].key == l[i].key;
    if Has(l, k) {
      var i := KeyFound(l, k);
      if i >= at {
        assert visits[i - at].key == k;
      } else {
        assert l[i].key == k && l[at].key == [];
      }
    }
  }

  lemma LessThanEmpty(t: bytes)
    ensures !Less(t, [])
  {
  }

  // The list of some requested trait has the key, and not before the empty key.
  ghost predicate ReachedUnder(index: map<Trait, List>, ts: seq<Trait>, k: Key) {
    exists t | t in ts :: Has(TraitList(index, t), k) && !BeforeEmptyKey(TraitList(index, t), k)
  }

  lemma ReachedUnderMore(index: map<Trait, List>, ts: seq<Trait>, k: Key)
    requires ts != []
    ensures ReachedUnder(index, ts, k) <==>
              || (Has(TraitList(index, ts[0]), k) && !BeforeEmptyKey(TraitList(index, ts[0]), k))
              || ReachedUnder(index, ts[1..], k)
  {
    assert ts == [ts[0]] + ts[1..];
  }

  lemma VisitedConcat(a: seq<Visit>, b: seq<Visit>, k: Key)
    ensures Visited(a + b, k) <==> Visited(a, k) || Visited(b, k)
  {
    VisitedSplit(a + b, |a|);
    assert (a + b)[..|a|] == a && (a + b)[|a|..] == b;
  }

  lemma TailFirst(index: map<Trait, List>, ts: seq<Trait>)
    requires ts != []
    ensures Tail(index, ts, [], []) == Block(index, ts[0], []) + Tail(index, ts[1..], [], [])
  {
    LessThanEmpty(ts[0]);
  }

  lemma {:induction false} TailFromStart(index: map<Trait, List>, ts: seq<Trait>, k: Key)
    requires ListsOk(index)
    ensures Visited(Tail(index, ts, [], []), k) <==> ReachedUnder(index, ts, k)
  {
    if ts != [] {
      TailFromStart(index, ts[1..], k);
      TailFirst(index, ts);
      VisitedConcat(Block(index, ts[0], []), Tail(index, ts[1..], [], []), k);
      FromEmptyKey(ts[0], TraitList(index, ts[0]), k);
      ReachedUnderMore(index, ts, k);
    }
  }

  // A first call without cursor and the calls that follow it return exactly the keys that some
  // requested trait lists, unless the trait's list holds the empty key further on.
  lemma PagesExactly(m: Mailbox, traits: seq<Trait>, limit: int, k: Key)
    requires IndexOk(m) && limit >= 2
    ensures InPages(Pages(m.index, traits, [], [], limit), k) <==>
            exists t | t in traits :: Has(TraitList(m.index, t), k) && !BeforeEmptyKey(TraitList(m.index, t), k)
  {
    PagesCover(m.index, traits, [], [], limit, k);
    TailFromStart(m.index, Dedup(SortedTraits(traits)), k);
    forall t
      ensures t in Dedup(SortedTraits(traits)) <==> t in traits
    {
      DedupMembers(SortedTraits(traits), t);
      NotAfterIsOrder();
      SortMembers(traits, NotAfter);
    }
  }

  // The key is there and has a requested trait.
  ghost predicate Requested(m: Mailbox, traits: seq<Trait>, k: Key) {
    k in m.values && m.values[k].present && exists t | t in traits :: t in m.values[k].traits
  }

  // Every requested trait of the key lists it before the empty key.
  ghost predicate Hidden(m: Mailbox, traits: seq<Trait>, k: Key) {
    forall t | t in traits && Has(TraitList(m.index, t), k) :: BeforeEmptyKey(TraitList(m.index, t), k)
  }

  // Pagination is complete exactly when no key hides before the empty key.
  lemma CompleteExactly(m: Mailbox, traits: seq<Trait>, limit: int)
    requires IndexOk(m) && limit >= 2
    ensures (forall k :: InPages(Pages(m.index, traits, [], [], limit), k) <==> Requested(m, traits, k)) <==>
            (forall k | Requested(m, traits, k) :: !Hidden(m, traits, k))
  {
    var pages := Pages(m.index, traits, [], [], limit);
    forall k
      ensures InPages(pages, k) <==> Requested(m, traits, k) && !Hidden(m, traits, k)
    {
      PagesExactly(m, traits, limit, k);
      assert forall t :: Has(TraitList(m.index, t), k) <==>
          k in m.values && m.values[k].present && t in m.values[k].traits;
    }
  }

  // In particular when no key is empty: the union of the pages is the keys with a requested trait.
  lemma CompleteWithoutEmptyKey(m: Mailbox, traits: seq<Trait>, limit: int, k: Key)
    requires IndexOk(m) && limit >= 2 && [] !in m.values
    ensures InPages(Pages(m.index, traits, [], [], limit), k) <==> Requested(m, traits, k)
  {
    forall x | Requested(m, traits, x)
      ensures !Hidden(m, traits, x)
    {
      var t :| t in traits && t in m.values[x].traits;
      assert Has(TraitList(m.index, t), x);
      if BeforeEmptyKey(TraitList(m.index, t), x) {
        assert Has(TraitList(m.index, t), []);
      }
    }
    CompleteExactly(m, traits, limit);
  }

  const EMPTY_KEY_FIRST: seq<Op> := [Put(Element([], [], [[7]])), Put(Element([1], [], [[7]]))]

  // Such a key exists: put the empty key and then another one under the same trait. The second one is
  // in front, and no sequence of pages returns it.
  lemma HiddenKeyExample(limit: int)
    requires limit >= 2
    ensures Run(EMPTY, EMPTY_KEY_FIRST).Ok?
    ensures var m := Run(EMPTY, EMPTY_KEY_FIRST).value;
            IndexOk(m) && Requested(m, [[7]], [1]) && !InPages(Pages(m.index, [[7]], [], [], limit), [1])
  {
    var ops, t: Trait := EMPTY_KEY_FIRST, [7];
    assert ops[..0] == [] && ops[..1][..0] == [] && ops[..1] == [ops[0]];
    assert TraitsSize([t]) == 5 by {
      assert [t][1..] == [];
    }
    IndexOne(map[], t, []);
    var m1 := SetValue(EMPTY, ops[0].element).value;
    assert TraitList(m1.index, t) == [Entry([], [])] && [1] !in m1.values;
    assert Run(EMPTY, ops[..1]) == Ok(m1) by {
      assert ops[..1][0] == ops[0] && Run(EMPTY, []) == Ok(EMPTY);
    }
    IndexOne(m1.index, t, [1]);
    RunKeepsIndex(ops);
    var m := Run(EMPTY, ops).value;
    var l := TraitList(m.index, t);
    assert l == [Entry([1], []), Entry([], [])];
    PagesExactly(m, [t], limit, [1]);
    assert l[0].key == [1] && l[1].key == [];
    assert t in [t];
  }

  lemma IndexOne(index: map<Trait, List>, t: Trait, key: Key)
    requires !Has(TraitList(index, t), key)
    ensures IndexAll(index, [t], key) == index[t := [Entry(key, [])] + TraitList(index, t)]
  {
    assert [t][..0] == [];
  }

  // A limit of one never gets past the first visit.
  lemma LimitOneIsStuck(index: map<Trait, List>, traits: seq<Trait>, startTrait: Trait, startKey: Key)
    requires ListsOk(index) && Remaining(index, traits, startTrait, startKey) != []
    ensures var visits := Remaining(index, traits, startTrait, startKey);
            var q := GetKeys(index, traits, startTrait, startKey, 1);
            q.keys == [visits[0].key] && Remaining(index, traits, q.lastTrait, q.lastKey) == visits
  {
    var visits := Remaining(index, traits, startTrait, startKey);
    var q := GetKeys(index, traits, startTrait, startKey, 1);
    NotAfterIsOrder();
    SortOrdered(traits, NotAfter);
    var ts := Dedup(SortedTraits(traits));
    DedupIncreasing(SortedTraits(traits));
    var p := Page([], startTrait, startKey, 1);
    RepeatedTraitsHarmless(index, SortedTraits(traits), startTrait, startKey, p);
    ScanCollects(index, ts, startTrait, startKey, p, p);
    assert Collect(p, visits) == Found(p, visits[0]);
    TailAt(index, ts, startTrait, startKey, visits, 0);
  }

  // ---------- The values of the keys ----------

  // The values under the keys; an absent or removed key is an error.
  function ValuesOf(m: Mailbox, keys: seq<Key>): Result<seq<bytes>, Error> {
    if keys == [] then Ok([])
    else
      match ValuesOf(m, keys[..|keys| - 1])
      case Err(e) => Err(e)
      case Ok(values) =>
        match Value(m, keys[|keys| - 1])
        case Err(e) => Err(e)
        case Ok(e) => Ok(values + [e.value])
  }

  lemma {:induction false} ValuesOfPresent(m: Mailbox, keys: seq<Key>)
    requires forall k | k in keys :: k in m.values && m.values[k].present
    ensures ValuesOf(m, keys).Ok? && |ValuesOf(m, keys).value| == |keys|
    ensures forall i | 0 <= i < |keys| :: ValuesOf(m, keys).value[i] == m.values[keys[i]].value
  {
    if keys != [] {
      ValuesOfPresent(m, keys[..|keys| - 1]);
    }
  }

  lemma {:induction false} CollectedVisited(p: Page, visits: seq<Visit>, k: Key)
    requires k in Collect(p, visits).keys
    ensures k in p.keys || Visited(visits, k)
    decreases |visits|
  {
    if visits != [] && p.left > 0 {
      CollectedVisited(Found(p, visits[0]), visits[1..], k);
      VisitedSplit(visits, 1);
    }
  }

  lemma FromLists(t: Trait, l: List, start: Key, k: Key)
    requires Visited(Visits(t, Lists.From(l, start)), k)
    ensures Has(l, k)
  {
    var from := Lists.From(l, start);
    var i :| 0 <= i < |from| && from[i].key == k;
    assert from[i] in l;
  }

  // ---------- Lookups that fail ----------

  // Iteration over one trait starts at the head of its list when the lookup of the start key failed.
  ghost function Collected(index: map<Trait, List>, t: Trait, start: Key, failed: bool, p: Page): Page {
    Collect(p.(lastTrait := t, lastKey := start), if failed then Visits(t, TraitList(index, t))
            else Block(index, t, start))
  }

  // The loop of getKeys over a database some of whose lookups may have failed ends with q.
  ghost predicate Scanned(index: map<Trait, List>, ts: seq<Trait>, startTrait: Trait, startKey: Key, p: Page, q: Page)
    decreases |ts|
  {
    if ts == [] then q == p
    else if Less(ts[0], startTrait) then Scanned(index, ts[1..], startTrait, startKey, p, q)
    else
      var start := StartIn(ts[0], startTrait, startKey);
      exists failed ::
        var p' := Collected(index, ts[0], start, failed, p);
        if p'.left == 0 then q == p' else Scanned(index, ts[1..], startTrait, start, p', q)
  }

  // Without failures that is the page.
  lemma {:induction false} ScanIsScanned(index: map<Trait, List>, ts: seq<Trait>, startTrait: Trait, startKey: Key,
                                         p: Page)
    ensures Scanned(index, ts, startTrait, startKey, p, Scan(index, ts, startTrait, startKey, p))
    decreases |ts|
  {
    if ts != [] {
      if Less(ts[0], startTrait) {
        ScanIsScanned(index, ts[1..], startTrait, startKey, p);
      } else {
        var start := StartIn(ts[0], startTrait, startKey);
        var p' := Collected(index, ts[0], start, false, p);
        if p'.left != 0 {
          ScanIsScanned(index, ts[1..], startTrait, start, p');
        }
      }
    }
  }

  lemma CollectedListed(index: map<Trait, List>, t: Trait, start: Key, failed: bool, p: Page, k: Key)
    requires k in Collected(index, t, start, failed, p).keys
    ensures k in p.keys || Has(TraitList(index, t), k)
  {
    var l := TraitList(index, t);
    var visits := if failed then Visits(t, l) else Block(index, t, start);
    CollectedVisited(p.(lastTrait := t, lastKey := start), visits, k);
    if k !in p.keys {
      if failed {
        var i :| 0 <= i < |visits| && visits[i].key == k;
        assert l[i].key == k;
      } else {
        FromLists(t, l, start, k);
      }
    }
  }

  ghost predicate ListedUnder(index: map<Trait, List>, ts: seq<Trait>, k: Key) {
    exists t | t in ts :: Has(TraitList(index, t), k)
  }

  lemma ListedUnderMore(index: map<Trait, List>, ts: seq<Trait>, k: Key)
    requires ts != []
    ensures ListedUnder(index, ts, k) <==> Has(TraitList(index, ts[0]), k) || ListedUnder(index, ts[1..], k)
  {
    assert ts == [ts[0]] + ts[1..];
  }

  // Every key collected has one of the traits.
  lemma {:induction false} ScannedListed(index: map<Trait, List>, ts: seq<Trait>, startTrait: Trait, startKey: Key,
                                         p: Page, q: Page, k: Key)
    requires Scanned(index, ts, startTrait, startKey, p, q) && k in q.keys
    ensures k in p.keys || ListedUnder(index, ts, k)
    decreases |ts|
  {
    if ts != [] {
      ListedUnderMore(index, ts, k);
      if Less(ts[0], startTrait) {
        ScannedListed(index, ts[1..], startTrait, startKey, p, q, k);
      } else {
        var start := StartIn(ts[0], startTrait, startKey);
        var failed :| var p' := Collected(index, ts[0], start, failed, p);
                      if p'.left == 0 then q == p' else Scanned(index, ts[1..], startTrait, start, p', q);
        var p' := Collected(index, ts[0], start, failed, p);
        if k in p'.keys {
          CollectedListed(index, ts[0], start, failed, p, k);
        } else {
          ScannedListed(index, ts[1..], startTrait, start, p', q, k);
        }
      }
    }
  }

  // Going on from p at the i-th trait is one way to scan all of them.
  ghost predicate Reaches(index: map<Trait, List>, ts: seq<Trait>, startTrait: Trait, startKey: Key, first: Page,
                          i: nat, start: Key, p: Page)
    requires i <= |ts|
  {
    forall q | Scanned(index, ts[i..], startTrait, start, p, q) :: Scanned(index, ts, startTrait, startKey, first, q)
  }

  lemma ReachesNext(index: map<Trait, List>, ts: seq<Trait>, startTrait: Trait, startKey: Key, first: Page,
                    i: nat, start: Key, p: Page, failed: bool)
    requires i < |ts| && !Less(ts[i], startTrait) && Reaches(index, ts, startTrait, startKey, first, i, start, p)
    ensures var start' := StartIn(ts[i], startTrait, start);
            var p' := Collected(index, ts[i], start', failed, p);
            if p'.left == 0 then Scanned(index, ts, startTrait, startKey, first, p')
            else Reaches(index, ts, startTrait, startKey, first, i + 1, start', p')
  {
    var start' := StartIn(ts[i], startTrait, start);
    var p' := Collected(index, ts[i], start', failed, p);
    assert ts[i..][1..] == ts[i + 1..];
    if p'.left == 0 {
      assert Scanned(index, ts[i..], startTrait, start, p, p');
    } else {
      forall q | Scanned(index, ts[i + 1..], startTrait, start', p', q)
        ensures Scanned(index, ts, startTrait, startKey, first, q)
      {
        assert Scanned(index, ts[i..], startTrait, start, p, q);
      }
    }
  }

  lemma ReachesPast(index: map<Trait, List>, ts: seq<Trait>, startTrait: Trait, startKey: Key, first: Page,
                    i: nat, start: Key, p: Page)
    requires i < |ts| && Less(ts[i], startTrait) && Reaches(index, ts, startTrait, startKey, first, i, start, p)
    ensures Reaches(index, ts, startTrait, startKey, first, i + 1, start, p)
  {
    assert ts[i..][1..] == ts[i + 1..];
    forall q | Scanned(index, ts[i + 1..], startTrait, start, p, q)
      ensures Scanned(index, ts, startTrait, startKey, first, q)
    {
      assert Scanned(index, ts[i..], startTrait, start, p, q);
    }
  }

  // What getKeys returns over a database some of whose lookups may have failed.
  ghost predicate MayReturn(index: map<Trait, List>, traits: seq<Trait>, startTrait: Trait, startKey: Key, limit: int,
                            page: Page) {
    Scanned(index, SortedTraits(traits), startTrait, startKey, Page([], startTrait, startKey, limit), page)
  }

  lemma MayReturnPage(index: map<Trait, List>, traits: seq<Trait>, startTrait: Trait, startKey: Key, limit: int)
    ensures MayReturn(index, traits, startTrait, startKey, limit, GetKeys(index, traits, startTrait, startKey, limit))
  {
    ScanIsScanned(index, SortedTraits(traits), startTrait, startKey, Page([], startTrait, startKey, limit));
  }

  lemma ReturnedPresent(m: Mailbox, traits: seq<Trait>, startTrait: Trait, startKey: Key, limit: int, page: Page)
    requires IndexOk(m) && MayReturn(m.index, traits, startTrait, startKey, limit, page)
    ensures ValuesOf(m, page.keys).Ok? && |ValuesOf(m, page.keys).value| == |page.keys|
    ensures forall i | 0 <= i < |page.keys| ::
              && page.keys[i] in m.values && m.values[page.keys[i]].present
              && ValuesOf(m, page.keys).value[i] == m.values[page.keys[i]].value
  {
    forall k | k in page.keys
      ensures k in m.values && m.values[k].present
    {
      var ts := SortedTraits(traits);
      ScannedListed(m.index, ts, startTrait, startKey, Page([], startTrait, startKey, limit), page, k);
      var t :| t in ts && Has(TraitList(m.index, t), k);
    }
    ValuesOfPresent(m, page.keys);
  }

  // Every key a page returns is present, so its value can be read: Indexed never meets a dangling key.
  lemma NeverDangling(m: Mailbox, traits: seq<Trait>, startTrait: Trait, startKey: Key, limit: int)
    requires IndexOk(m)
    ensures var keys := GetKeys(m.index, traits, startTrait, startKey, limit).keys;
            && ValuesOf(m, keys).Ok? && |ValuesOf(m, keys).value| == |keys|
            && forall i | 0 <= i < |keys| ::
                 keys[i] in m.values && m.values[keys[i]].present &&
                     ValuesOf(m, keys).value[i] == m.values[keys[i]].value
  {
    MayReturnPage(m.index, traits, startTrait, startKey, limit);
    ReturnedPresent(m, traits, startTrait, startKey, limit, GetKeys(m.index, traits, startTrait, startKey, limit));
  }
}
