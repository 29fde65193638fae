/**
 indexer/index.go: the index of accepted containers. It keeps two maps and a counter in a base
 database, written through an overlay that is committed atomically after each acceptance. Any
 database access may fail, and the node may stop at any moment: what is lost then is the overlay.

 The index of a container is its position, below 2^64 - 1. Containers are marshalled by a format that
 round trips; the clock is a parameter.
 */
module Indexer {
  import opened Wrappers
  import opened Bytes

  type ID = bytes

  datatype Container = Container(id: ID, body: bytes, timestamp: int)

  datatype Format = Format(encode: Container -> Option<bytes>, decode: bytes -> Option<Container>)

  ghost predicate RoundTrips(f: Format) {
    forall c {:trigger f.encode(c)} :: f.encode(c).Some? ==> f.decode(f.encode(c).value) == Some(c)
  }

  datatype Error = Database | TooLarge | NotFound | NoneAccepted | BadRange

  const MAX_FETCHED_BY_RANGE := 1024

  // A container whose fields were never set.
  const BLANK := Container(seq(32, _ => 0), [], 0)

  // The two prefixed maps and the next accepted index.
  datatype Tables = Tables(indexToContainer: map<nat, bytes>, containerToIndex: map<ID, nat>, next: Option<nat>)

  const NO_TABLES := Tables(map[], map[], None)

  ghost predicate ContainerAt(f: Format, t: Tables, i: nat, c: Container) {
    i in t.indexToContainer && f.decode(t.indexToContainer[i]) == Some(c)
  }

  ghost predicate Listed(list: seq<Container>, id: ID) {
    exists i | 0 <= i < |list| :: list[i].id == id
  }

  // The maps are inverse to each other: position i holds the i-th container and its ID leads back to i.
  ghost predicate Inverse(f: Format, t: Tables, list: seq<Container>) {
    && (forall i | 0 <= i < |list| ::
        ContainerAt(f, t, i, list[i]) && list[i].id in t.containerToIndex && t.containerToIndex[list[i].id] == i)
    && (forall id | id in t.containerToIndex :: Listed(list, id))
  }

  // The tables hold exactly the list.
  ghost predicate Exactly(f: Format, t: Tables, list: seq<Container>) {
    && Inverse(f, t, list)
    && (forall i | i in t.indexToContainer :: i < |list|)
    && t.next == if list == [] then None else Some(|list|)
  }

  // No two containers of the list have the same ID.
  lemma InverseIsOneToOne(f: Format, t: Tables, list: seq<Container>)
    requires Inverse(f, t, list)
    ensures DistinctIDs(list)
  {
    forall i, j | 0 <= i < j < |list|
      ensures list[i].id != list[j].id
    {
      assert t.containerToIndex[list[i].id] == i && t.containerToIndex[list[j].id] == j;
    }
  }

  lemma OneMore(f: Format, t: Tables, list: seq<Container>, c: Container, b: bytes)
    requires Inverse(f, t, list) && c.id !in t.containerToIndex && f.decode(b) == Some(c)
    ensures Inverse(f, t.(indexToContainer := t.indexToContainer[|list| := b],
                          containerToIndex := t.containerToIndex[c.id := |list|]), list + [c])
  {
    var t', list' := t.(indexToContainer := t.indexToContainer[|list| := b],
                        containerToIndex := t.containerToIndex[c.id := |list|]), list + [c];
    forall i | 0 <= i < |list'|
      ensures ContainerAt(f, t', i, list'[i]) && list'[i].id in t'.containerToIndex &&
              t'.containerToIndex[list'[i].id] == i
    {
      if i < |list| {
        assert ContainerAt(f, t, i, list[i]) && list'[i] == list[i];
      }
    }
    forall id | id in t'.containerToIndex
      ensures Listed(list', id)
    {
      if id == c.id {
        assert list'[|list|].id == id;
      } else {
        assert Listed(list, id);
        var i :| 0 <= i < |list| && list[i].id == id;
        assert list'[i].id == id;
      }
    }
  }

  // A leftover container at the next position changes nothing.
  lemma Leftover(f: Format, t: Tables, list: seq<Container>, b: bytes)
    requires Inverse(f, t, list)
    ensures Inverse(f, t.(indexToContainer := t.indexToContainer[|list| := b]), list)
  {
    assert forall i | 0 <= i < |list| :: ContainerAt(f, t, i, list[i]);
  }

  lemma OtherNext(f: Format, t: Tables, list: seq<Container>, next: Option<nat>)
    requires Inverse(f, t, list)
    ensures Inverse(f, t.(next := next), list)
  {
    assert forall i | 0 <= i < |list| :: ContainerAt(f, t, i, list[i]);
  }

  class Index {
    const format: Format
    // Whether database accesses may fail.
    const flaky: bool
    // What is in the base database, and what is seen through the overlay.
    var base: Tables
    var view: Tables
    var nextAcceptedIndex: nat

    // The accepted containers in order of first acceptance; the first `durable` of them are in the base.
    ghost var accepted: seq<Container>
    ghost var durable: nat

    constructor (format: Format, flaky: bool, base: Tables)
      ensures this.format == format && this.flaky == flaky && this.base == base && view == base
      ensures nextAcceptedIndex == 0
    {
      this.format, this.flaky, this.base, view, nextAcceptedIndex := format, flaky, base, base, 0;
      accepted, durable := [], 0;
    }

    // The counter that was read from the base, when it holds one.
    method Load(ghost list: seq<Container>)
      requires RoundTrips(format) && Exactly(format, base, list) && |list| < MAX_UINT64
      requires view == base && nextAcceptedIndex == 0
      modifies `nextAcceptedIndex, `accepted, `durable
      ensures Valid() && History() == Log(list, |list|)
    {
      if base.next.Some? {
        nextAcceptedIndex := base.next.value;
      }
      accepted, durable := list, |list|;
      assert accepted[..durable] == list;
    }

    ghost function History(): Log
      reads this
    {
      Log(accepted, durable)
    }

    ghost predicate Valid()
      reads this
    {
      && RoundTrips(format)
      && nextAcceptedIndex == |accepted| < MAX_UINT64 && durable <= |accepted|
      && Inverse(format, view, accepted)
      && (forall i | i in view.indexToContainer :: i <= |accepted|)
      && Exactly(format, base, accepted[..durable])
    }

    method Faults() returns (failed: bool)
      ensures failed ==> flaky
    {
      if * {
        failed := flaky;
      } else {
        failed := false;
      }
    }

    // Puts the container into both maps and counts it.
    method Record(c: Container, b: bytes) returns (ok: bool)
      requires Valid() && nextAcceptedIndex < MAX_UINT64 - 1 && c.id !in view.containerToIndex &&
               format.decode(b) == Some(c)
      modifies `view, `nextAcceptedIndex, `accepted
      ensures Valid() && (!ok ==> flaky) && accepted == if ok then old(accepted) + [c] else old(accepted)
      ensures ok ==> forall i | i in view.indexToContainer :: i < |accepted|
    {
      var failed := Faults();
      if failed {
        return false;
      }
      Leftover(format, view, accepted, b);
      view := view.(indexToContainer := view.indexToContainer[nextAcceptedIndex := b]);
      failed := Faults();
      if failed {
        return false;
      }
      OneMore(format, view, accepted, c, b);
      assert view.indexToContainer[nextAcceptedIndex := b] == view.indexToContainer;
      view := view.(containerToIndex := view.containerToIndex[c.id := nextAcceptedIndex]);
      assert (accepted + [c])[..durable] == accepted[..durable];
      accepted, nextAcceptedIndex := accepted + [c], nextAcceptedIndex + 1;
      return true;
    }

    // Puts the counter and commits the overlay.
    method Commit() returns (ok: bool)
      requires Valid() && accepted != [] && forall i | i in view.indexToContainer :: i < |accepted|
      modifies `base, `view, `durable
      ensures Valid() && (!ok ==> flaky && base == old(base)) && durable == if ok then |accepted| else old(durable)
    {
      var failed := Faults();
      if failed {
        return false;
      }
      OtherNext(format, view, accepted, Some(nextAcceptedIndex));
      view := view.(next := Some(nextAcceptedIndex));
      failed := Faults();
      if failed {
        return false;
      }
      assert accepted[..|accepted|] == accepted;
      base, durable := view, |accepted|;
      return true;
    }

    // Indexing a container whose ID is not in the maps.
    method Insert(c: Container) returns (r: Result<(), Error>, ghost fault: Fault)
      requires Valid() && nextAcceptedIndex < MAX_UINT64 - 1 && c.id !in view.containerToIndex
      modifies `base, `view, `nextAcceptedIndex, `accepted, `durable
      ensures Valid()
      ensures accepted == if fault == Early then old(accepted) else old(accepted) + [c]
      ensures durable == if fault == NoFault then |accepted| else old(durable)
      ensures r.Ok? <==> fault == NoFault
      ensures r.Err? ==> base == old(base)
      ensures !flaky && format.encode(c).Some? ==> r.Ok?
    {
      var containerBytes := format.encode(c);
      if containerBytes.None? {
        return Err(TooLarge), Early;
      }
      var recorded := Record(c, containerBytes.value);
      if !recorded {
        return Err(Database), Early;
      }
      var committed := Commit();
      if !committed {
        return Err(Database), Late;
      }
      return Ok(()), NoFault;
    }

    // Whatever fails, the base holds an initial part of the accepted containers, and that part only grows.
    // A successful Accept makes its container durable, unless an earlier commit of it had failed.
    method Accept(id: ID, body: bytes, time: int) returns (r: Result<(), Error>, ghost fault: Fault)
      requires Valid() && nextAcceptedIndex < MAX_UINT64 - 1
      modifies `base, `view, `nextAcceptedIndex, `accepted, `durable
      ensures Valid()
      ensures History() == After(old(History()), Accepting(Container(id, body, time), fault))
      ensures r.Ok? ==> fault == NoFault && Listed(accepted, id)
      ensures r.Ok? ==> (Listed(accepted[..durable], id) <==> !Listed(old(accepted)[old(durable)..], id))
      ensures r.Err? ==> base == old(base) && durable == old(durable)
      ensures !flaky && format.encode(Container(id, body, time)).Some? ==> r.Ok?
    {
      ghost var before := History();
      var c := Container(id, body, time);
      InverseIsOneToOne(format, view, accepted);
      AcceptedIsListed(before, c);
      var failed := Faults();
      if failed {
        return Err(Database), Early;
      }
      if id in view.containerToIndex {
        assert Listed(accepted, id);
        return Ok(()), NoFault;
      }
      NotListed(format, view, accepted, id);
      r, fault := Insert(c);
    }

    method LastAcceptedIndex() returns (r: Option<nat>)
      requires Valid()
      ensures r == if accepted == [] then None else Some(|accepted| - 1)
    {
      return if nextAcceptedIndex != 0 then Some(nextAcceptedIndex - 1) else None;
    }

    method GetContainerByIndex(index: nat) returns (r: Result<Container, Error>)
      requires Valid()
      ensures r.Ok? ==> index < |accepted| && r.value == accepted[index]
      ensures r == Err(NotFound) <==> index >= |accepted|
      ensures r.Err? ==> r == Err(NotFound) || (r == Err(Database) && flaky)
    {
      var last := LastAcceptedIndex();
      if last.None? || index > last.value {
        return Err(NotFound);
      }
      assert ContainerAt(format, view, index, accepted[index]);
      var failed := Faults();
      if failed {
        return Err(Database);
      }
      return Ok(format.decode(view.indexToContainer[index]).value);
    }

    // Fills the containers from startIndex to lastIndex in, none when lastIndex is before startIndex.
    method Fetch(startIndex: nat, lastIndex: nat, containers: array<Container>) returns (ok: bool)
      requires Valid() && lastIndex < |accepted|
      requires startIndex <= lastIndex ==> containers.Length == lastIndex + 1 - startIndex
      modifies containers
      ensures !ok ==> flaky && startIndex <= lastIndex
      ensures ok && startIndex <= lastIndex ==> containers[..] == accepted[startIndex..lastIndex + 1]
      ensures lastIndex < startIndex ==> containers[..] == old(containers[..])
    {
      var j := startIndex;
      while j <= lastIndex
        invariant startIndex <= j && (startIndex <= lastIndex ==> j <= lastIndex + 1)
        invariant startIndex <= lastIndex ==> containers[..j - startIndex] == accepted[startIndex..j]
        invariant lastIndex < startIndex ==> j == startIndex && containers[..] == old(containers[..])
      {
        var c := GetContainerByIndex(j);
        if c.Err? {
          return false;
        }
        containers[j - startIndex] := c.value;
        assert accepted[startIndex..j + 1] == accepted[startIndex..j] + [accepted[j]];
        j := j + 1;
      }
      assert startIndex <= lastIndex ==> containers[..] == containers[..j - startIndex];
      return true;
    }

    // The containers from startIndex on, numToFetch of them or up to the last one: exactly when the range
    // does not pass 2^64. The end of the range and the number of containers are computed modulo 2^64, so a
    // range that passes 2^64 ends before it starts and gives numToFetch blank containers, without an error.
    method GetContainerRange(startIndex: uint64, numToFetch: uint64) returns (r: Result<seq<Container>, Error>)
      requires Valid()
      ensures numToFetch == 0 || numToFetch > MAX_FETCHED_BY_RANGE ==> r == Err(BadRange)
      ensures 1 <= numToFetch <= MAX_FETCHED_BY_RANGE ==>
                && (accepted == [] ==> r == Err(NoneAccepted))
                && (0 < |accepted| <= startIndex ==> r == Err(BadRange))
                && (startIndex < |accepted| && r.Err? ==>
                      r == Err(Database) && flaky && startIndex + numToFetch <= MAX_UINT64 + 1)
      ensures r.Ok? ==>
                && startIndex < |accepted| && r.value == RangeOf(accepted, startIndex, numToFetch)
                && (r.value == accepted[startIndex..Smaller(startIndex + numToFetch, |accepted|)] <==>
                    startIndex + numToFetch <= MAX_UINT64 + 1)
                && (startIndex + numToFetch > MAX_UINT64 + 1 ==> r.value == seq(numToFetch, _ => BLANK))
    {
      if numToFetch == 0 || numToFetch > MAX_FETCHED_BY_RANGE {
        return Err(BadRange);
      }
      var last := LastAcceptedIndex();
      if last.None? {
        return Err(NoneAccepted);
      }
      if startIndex > last.value {
        return Err(BadRange);
      }
      RangeMeaning(accepted, startIndex, numToFetch);
      r := ReadRange(startIndex, numToFetch, last.value);
    }

    method ReadRange(startIndex: uint64, numToFetch: uint64, last: uint64) returns (r: Result<seq<Container>, Error>)
      requires Valid() && startIndex <= last == |accepted| - 1 && 1 <= numToFetch <= MAX_FETCHED_BY_RANGE
      ensures r.Ok? ==> r.value == RangeOf(accepted, startIndex, numToFetch)
      ensures r.Err? ==> r == Err(Database) && flaky && startIndex + numToFetch <= MAX_UINT64 + 1
    {
      var lastIndex := Smaller(Wrapped(startIndex + numToFetch - 1), last);
      var length := Wrapped(lastIndex - startIndex + 1);
      RangeWraps(startIndex, numToFetch, last);
      var containers := new Container[length](_ => BLANK);
      var ok := Fetch(startIndex, lastIndex, containers);
      if !ok {
        return Err(Database);
      }
      return Ok(containers[..]);
    }

    method GetIndex(id: ID) returns (r: Result<nat, Error>)
      requires Valid()
      ensures r.Ok? ==> r.value < |accepted| && accepted[r.value].id == id
      ensures r == Err(NotFound) ==> !Listed(accepted, id)
      ensures r.Err? ==> r == Err(NotFound) || (r == Err(Database) && flaky)
    {
      var failed := Faults();
      if failed {
        return Err(Database);
      }
      if id !in view.containerToIndex {
        NotListed(format, view, accepted, id);
        return Err(NotFound);
      }
      assert Listed(accepted, id);
      return Ok(view.containerToIndex[id]);
    }

    // The container found by ID is the one at the ID's index.
    method GetContainerByID(id: ID) returns (r: Result<Container, Error>)
      requires Valid()
      ensures r.Ok? ==> r.value.id == id && r.value in accepted
      ensures r == Err(NotFound) ==> !Listed(accepted, id)
      ensures r.Err? ==> r == Err(NotFound) || (r == Err(Database) && flaky)
    {
      var i := GetIndex(id);
      if i.Err? {
        return Err(i.error);
      }
      assert ContainerAt(format, view, i.value, accepted[i.value]);
      var failed := Faults();
      if failed {
        return Err(Database);
      }
      return Ok(format.decode(view.indexToContainer[i.value]).value);
    }

    method GetLastAccepted() returns (r: Result<Container, Error>)
      requires Valid()
      ensures r.Ok? ==> accepted != [] && r.value == accepted[|accepted| - 1]
      ensures r == Err(NoneAccepted) <==> accepted == []
    {
      var last := LastAcceptedIndex();
      if last.None? {
        return Err(NoneAccepted);
      }
      r := GetContainerByIndex(last.value);
    }
  }

  function Smaller(a: nat, b: nat): nat {
    if a < b then a else b
  }

  function Wrapped(n: int): (r: nat)
    ensures r <= MAX_UINT64
  {
    n % (MAX_UINT64 + 1)
  }

  lemma WrappedIs(n: int)
    requires -(MAX_UINT64 + 1) <= n < 2 * (MAX_UINT64 + 1)
    ensures Wrapped(n) == if n < 0 then n + (MAX_UINT64 + 1) else if n <= MAX_UINT64 then n else n - (MAX_UINT64 + 1)
  {
  }

  // What is returned of a list for n containers from start on.
  ghost function RangeOf(list: seq<Container>, start: uint64, n: uint64): seq<Container>
    requires start < |list|
  {
    var end := Smaller(Wrapped(start + n - 1), |list| - 1);
    if start <= end then list[start..end + 1] else seq(Wrapped(end - start + 1), _ => BLANK)
  }

  lemma RangeMeaning(list: seq<Container>, start: uint64, n: uint64)
    requires start < |list| < MAX_UINT64 && 1 <= n <= MAX_FETCHED_BY_RANGE
    ensures RangeOf(list, start, n) == list[start..Smaller(start + n, |list|)] <==> start + n <= MAX_UINT64 + 1
    ensures start + n > MAX_UINT64 + 1 ==> RangeOf(list, start, n) == seq(n, _ => BLANK)
  {
    RangeWraps(start, n, |list| - 1);
    if start + n > MAX_UINT64 + 1 {
      assert |RangeOf(list, start, n)| == n > |list[start..]|;
    }
  }

  // Four containers are asked for, the last one of the list is there, and four blank ones are returned.
  lemma WrappingRange(c: Container)
    ensures var list := seq(MAX_UINT64 - 1, _ => c);
            && RangeOf(list, MAX_UINT64 - 2, 4) == [BLANK, BLANK, BLANK, BLANK]
            && list[MAX_UINT64 - 2..] == [c]
  {
    RangeWraps(MAX_UINT64 - 2, 4, MAX_UINT64 - 2);
    var list := seq(MAX_UINT64 - 1, _ => c);
    assert |RangeOf(list, MAX_UINT64 - 2, 4)| == 4;
  }

  // A range of n containers from start on: its end, no later than last, and its length.
  lemma RangeWraps(start: uint64, n: uint64, last: uint64)
    requires start <= last < MAX_UINT64 && 1 <= n <= MAX_FETCHED_BY_RANGE
    ensures var end := Smaller(Wrapped(start + n - 1), last);
            if start + n <= MAX_UINT64 + 1
            then start <= end == Smaller(start + n, last + 1) - 1 && Wrapped(end - start + 1) == end - start + 1
            else end < start && Wrapped(end - start + 1) == n
  {
    WrappedIs(start + n - 1);
    WrappedIs(Smaller(Wrapped(start + n - 1), last) - start + 1);
  }

  lemma NotListed(f: Format, t: Tables, list: seq<Container>, id: ID)
    requires Inverse(f, t, list) && id !in t.containerToIndex
    ensures !Listed(list, id)
  {
  }

  lemma NotListedPart(list: seq<Container>, n: nat, id: ID)
    requires !Listed(list, id) && n <= |list|
    ensures !Listed(list[n..], id)
  {
    assert forall i | 0 <= i < |list[n..]| :: list[n..][i] == list[n + i];
  }

  // With distinct IDs a listed container is in one of two parts.
  lemma ListedParts(list: seq<Container>, n: nat, id: ID)
    requires n <= |list| && Listed(list, id) && DistinctIDs(list)
    ensures Listed(list[..n], id) <==> !Listed(list[n..], id)
  {
    var i :| 0 <= i < |list| && list[i].id == id;
    if i < n {
      assert list[..n][i].id == id;
    } else {
      assert list[n..][i - n].id == id;
    }
  }

  // A new index over a base database, new or left behind by an earlier run. What the base holds is durable.
  method NewIndex(format: Format, flaky: bool, base: Tables, ghost list: seq<Container>)
    returns (r: Result<Index, Error>)
    requires RoundTrips(format) && Exactly(format, base, list) && |list| < MAX_UINT64
    ensures r.Err? ==> r == Err(Database) && flaky
    ensures r.Ok? ==>
              && fresh(r.value) && r.value.Valid() && r.value.History() == Log(list, |list|)
              && r.value.format == format && r.value.flaky == flaky && r.value.base == base
  {
    var i := new Index(format, flaky, base);
    var failed := i.Faults();
    if failed {
      return Err(Database);
    }
    i.Load(list);
    return Ok(i);
  }

  // Starting again over what a stopped index left in its base.
  method Restart(stopped: Index) returns (r: Result<Index, Error>)
    requires stopped.Valid()
    ensures r.Err? ==> r == Err(Database) && stopped.flaky
    ensures r.Ok? ==>
              && fresh(r.value) && r.value.Valid() && r.value.base == stopped.base
              && r.value.History() == After(stopped.History(), Stop)
  {
    r := NewIndex(stopped.format, stopped.flaky, stopped.base, stopped.accepted[..stopped.durable]);
  }

  // ---------- Whole runs ----------

  // What an index has accepted, and how much of it is in the base.
  datatype Log = Log(accepted: seq<Container>, durable: nat)

  // Where an acceptance fails, if it does: before the container is in both maps, or after.
  datatype Fault = NoFault | Early | Late

  datatype Event = Accepting(c: Container, fault: Fault) | Stop

  ghost function After(l: Log, e: Event): Log
    requires l.durable <= |l.accepted|
  {
    match e
    case Stop => Log(l.accepted[..l.durable], l.durable)
    case Accepting(c, fault) =>
      if Listed(l.accepted, c.id) || fault == Early then l
      else Log(l.accepted + [c], if fault == Late then l.durable else |l.accepted| + 1)
  }

  ghost function Run(l: Log, events: seq<Event>): (r: Log)
    requires l.durable <= |l.accepted|
    ensures r.durable <= |r.accepted|
  {
    if events == [] then l else After(Run(l, events[..|events| - 1]), events[|events| - 1])
  }

  ghost function Durable(l: Log): seq<Container>
    requires l.durable <= |l.accepted|
  {
    l.accepted[..l.durable]
  }

  // An acceptance without a fault: its container is listed, and is durable unless it waits in the overlay.
  lemma AcceptedIsListed(l: Log, c: Container)
    requires l.durable <= |l.accepted| && DistinctIDs(l.accepted)
    ensures var l' := After(l, Accepting(c, NoFault));
            && Listed(l'.accepted, c.id)
            && (Listed(Durable(l'), c.id) <==> !Listed(l.accepted[l.durable..], c.id))
  {
    if Listed(l.accepted, c.id) {
      ListedParts(l.accepted, l.durable, c.id);
    } else {
      var l' := After(l, Accepting(c, NoFault));
      assert Durable(l') == l'.accepted;
      assert l'.accepted[|l.accepted|].id == c.id;
      NotListedPart(l.accepted, l.durable, c.id);
    }
  }

  // A container whose commit failed stays out of the base when it is accepted again, and that succeeds.
  lemma FailedCommitIsNotRetried(c: Container)
    ensures Run(Log([], 0), [Accepting(c, Late), Accepting(c, NoFault)]) == Log([c], 0)
  {
    var events := [Accepting(c, Late), Accepting(c, NoFault)];
    assert events[..1] == [events[0]] && events[..1][..0] == [];
    assert Run(Log([], 0), events[..1]) == Log([c], 0);
    assert [c][0].id == c.id;
  }

  ghost predicate DistinctIDs(list: seq<Container>) {
    forall i, j | 0 <= i < j < |list| :: list[i].id != list[j].id
  }

  // Whatever is accepted, fails or crashes: the base only grows at its end...
  lemma {:induction false} DurableGrows(l: Log, events: seq<Event>)
    requires l.durable <= |l.accepted|
    ensures Durable(l) <= Durable(Run(l, events))
  {
    if events != [] {
      DurableGrows(l, events[..|events| - 1]);
      var before := Run(l, events[..|events| - 1]);
      assert Durable(before) <= Durable(After(before, events[|events| - 1]));
    }
  }

  ghost predicate Offered(events: seq<Event>, c: Container) {
    exists e | e in events :: e.Accepting? && e.c == c
  }

  // ... and each ID is indexed once, with a container it was offered with.
  lemma {:induction false} IndexedOnce(events: seq<Event>)
    ensures DistinctIDs(Run(Log([], 0), events).accepted)
    ensures forall c | c in Run(Log([], 0), events).accepted :: Offered(events, c)
  {
    if events != [] {
      var init, last := events[..|events| - 1], events[|events| - 1];
      IndexedOnce(init);
      var before, after := Run(Log([], 0), init), Run(Log([], 0), events);
      if last.Accepting? && !Listed(before.accepted, last.c.id) {
        assert forall i | 0 <= i < |before.accepted| :: before.accepted[i].id != last.c.id;
      }
      forall c | c in after.accepted
        ensures Offered(events, c)
      {
        if c in before.accepted {
          var e :| e in init && e.Accepting? && e.c == c;
          assert e in events;
        } else {
          assert last in events && last.c == c;
        }
      }
    }
  }
}
