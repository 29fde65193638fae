/**
 chains/atomic/prefixes.go, shared_memory.go, memory.go (sharedID) and writer.go: which mailboxes of
 a shared database the two chains use, Apply on an overlay committed with the caller's batches, and
 Get and Indexed as calls of the concurrent machine of module Serializability.

 The extra batches write outside of shared memory, as prefixdb keeps them apart. Hashes of chain ID
 pairs are a parameter; no two pairs one call uses collide.
 */
module SharedMemory {
  import opened Wrappers
  import opened Bytes
  import opened Entries
  import opened LinkedList
  import opened Mail = Mailbox
  import opened Locks
  import opened Serializability
  import opened SerializabilityProof
  import opened Sorting
  import Pagination
  import Database

  type ChainID = bytes

  // ---------- Prefixes ----------

  datatype Prefixes = Prefixes(smallerValue: bytes, smallerIndex: bytes, largerValue: bytes, largerIndex: bytes)

  const INBOUND := Prefixes([0], [1], [2], [3])
  const OUTBOUND := Prefixes([2], [3], [0], [1])

  // The prefixes of a value database and its index database.
  datatype Box = Box(value: bytes, index: bytes)

  function ValueAndIndexDB(p: Prefixes, myChainID: ChainID, peerChainID: ChainID): Box {
    if Less(myChainID, peerChainID) then Box(p.smallerValue, p.smallerIndex) else Box(p.largerValue, p.largerIndex)
  }

  function Inbox(my: ChainID, peer: ChainID): Box {
    ValueAndIndexDB(INBOUND, my, peer)
  }

  function Outbox(my: ChainID, peer: ChainID): Box {
    ValueAndIndexDB(OUTBOUND, my, peer)
  }

  // What one chain writes for the other is what the other reads, exactly when they differ.
  lemma Mirrored(a: ChainID, b: ChainID)
    ensures Outbox(a, b) == Inbox(b, a) <==> a != b
  {
    LessTotal(a, b);
    LessIrreflexive(a);
    if Less(a, b) && Less(b, a) {
      LessTransitive(a, b, a);
    }
  }

  // A chain's inbound and outbound databases never share a prefix.
  lemma DirectionsApart(a: ChainID, b: ChainID)
    ensures {Inbox(a, b).value, Inbox(a, b).index} !! {Outbox(a, b).value, Outbox(a, b).index}
    ensures Inbox(a, b).value != Inbox(a, b).index && Outbox(a, b).value != Outbox(a, b).index
  {
    assert [0 as byte][0] == 0 && [1 as byte][0] == 1 && [2 as byte][0] == 2 && [3 as byte][0] == 3;
  }

  // ---------- Shared IDs ----------

  type Hash = (ChainID, ChainID) -> SharedID

  function SharedIDOf(hash: Hash, id1: ChainID, id2: ChainID): SharedID {
    if Less(id2, id1) then hash(id2, id1) else hash(id1, id2)
  }

  // Both chains find the same database.
  lemma SharedIDSymmetric(hash: Hash, a: ChainID, b: ChainID)
    ensures SharedIDOf(hash, a, b) == SharedIDOf(hash, b, a)
  {
    LessTotal(a, b);
    if Less(a, b) && Less(b, a) {
      LessTransitive(a, b, a);
      LessIrreflexive(a);
    }
  }

  ghost predicate NoCollisions(hash: Hash, this_: ChainID, peers: set<ChainID>) {
    forall p, q | p in peers && q in peers :: SharedIDOf(hash, this_, p) == SharedIDOf(hash, this_, q) ==> p == q
  }

  // ---------- Operations on a shared database ----------

  // The base store holds mailboxes, in shared databases, and other data.
  datatype Cell = At(box: Box) | Raw(key: bytes)
  datatype Content = Mailed(m: Mailbox) | Data(b: bytes)

  type Space = map<Cell, Content>

  function MailboxAt(space: Space, box: Box): Mailbox {
    if At(box) in space && space[At(box)].Mailed? then space[At(box)].m else EMPTY
  }

  datatype Request =
    | Removal(box: Box, key: Key)
    | Addition(box: Box, element: Element)
    | Read(box: Box, key: Key)
    | Search(box: Box, traits: seq<Trait>, startTrait: Trait, startKey: Key, limit: int)

  datatype Answer = Done | Value(value: bytes) | Page(values: seq<bytes>, lastTrait: Trait, lastKey: Key)

  function Store1(box: Box, r: Result<Mailbox, Error>): Outcome<Cell, Content, Answer> {
    match r
    case Err(_) => Refused
    case Ok(m) => Accepted(map[At(box) := Some(Mailed(m))], Done)
  }

  ghost function Perform(space: Space, request: Request): Outcome<Cell, Content, Answer> {
    match request
    case Removal(box, key) => Store1(box, RemoveValue(MailboxAt(space, box), key))
    case Addition(box, e) => Store1(box, SetValue(MailboxAt(space, box), e))
    case Read(box, key) =>
      (match Mail.Value(MailboxAt(space, box), key)
       case Err(_) => Refused
       case Ok(e) => Accepted(map[], Answer.Value(e.value)))
    case Search(box, traits, startTrait, startKey, limit) =>
      var m := MailboxAt(space, box);
      var page := Pagination.GetKeys(m.index, traits, startTrait, startKey, limit);
      match Pagination.ValuesOf(m, page.keys)
      case Err(_) => Refused
      case Ok(values) => Accepted(map[], Answer.Page(values, page.lastTrait, page.lastKey))
  }

  // ---------- The calls ----------

  datatype Requests = Requests(removes: seq<Key>, puts: seq<Element>)

  function Removals(box: Box, keys: seq<Key>): seq<Request> {
    seq(|keys|, i requires 0 <= i < |keys| => Removal(box, keys[i]))
  }

  function Additions(box: Box, elements: seq<Element>): seq<Request> {
    seq(|elements|, i requires 0 <= i < |elements| => Addition(box, elements[i]))
  }

  // Removes from the inbox, then puts into the outbox.
  function RequestOps(my: ChainID, peer: ChainID, req: Requests): seq<Request> {
    Removals(Inbox(my, peer), req.removes) + Additions(Outbox(my, peer), req.puts)
  }

  // The peers of a call in the order their databases are locked.
  ghost predicate InOrder(hash: Hash, my: ChainID, peers: set<ChainID>, order: seq<ChainID>) {
    && (forall p :: p in peers <==> p in order)
    && forall i, j | 0 <= i < j < |order| :: SharedIDOf(hash, my, order[i]) < SharedIDOf(hash, my, order[j])
  }

  function ApplyParts(hash: Hash, my: ChainID, requests: map<ChainID, Requests>,
                      order: seq<ChainID>): seq<Part<Request>>
    requires forall p | p in order :: p in requests
  {
    seq(|order|, i requires 0 <= i < |order| =>
      assert order[i] in order; Part(SharedIDOf(hash, my, order[i]), RequestOps(my, order[i], requests[order[i]])))
  }

  function Flatten(batches: seq<seq<Database.Write>>): seq<Database.Write> {
    if batches == [] then [] else Flatten(batches[..|batches| - 1]) + batches[|batches| - 1]
  }

  // What a sequence of writes amounts to: the last one to each key.
  function Net(ws: seq<Database.Write>): map<Cell, Option<Content>> {
    if ws == [] then map[]
    else
      var w := ws[|ws| - 1];
      Net(ws[..|ws| - 1])[Raw(w.key) := if w.Put? then Some(Data(w.value)) else None]
  }

  function ApplyCall(hash: Hash, my: ChainID, requests: map<ChainID, Requests>, order: seq<ChainID>,
                     batches: seq<seq<Database.Write>>)
    : Call<Cell, Content, Request>
    requires forall p | p in order :: p in requests
  {
    Call(ApplyParts(hash, my, requests, order), Net(Flatten(batches)), false)
  }

  function Reads(box: Box, keys: seq<Key>): seq<Request> {
    seq(|keys|, i requires 0 <= i < |keys| => Read(box, keys[i]))
  }

  function GetCall(hash: Hash, my: ChainID, peer: ChainID, keys: seq<Key>): Call<Cell, Content, Request> {
    Call([Part(SharedIDOf(hash, peer, my), Reads(Inbox(my, peer), keys))], map[], true)
  }

  function IndexedCall(hash: Hash, my: ChainID, peer: ChainID, traits: seq<Trait>, startTrait: Trait, startKey: Key,
                       limit: int)
    : Call<Cell, Content, Request>
  {
    Call([Part(SharedIDOf(hash, peer, my), [Search(Inbox(my, peer), traits, startTrait, startKey, limit)])], map[],
         true)
  }

  // Apply takes its locks in increasing order: it fits the lock machine.
  lemma ApplyLocksInOrder(hash: Hash, my: ChainID, requests: map<ChainID, Requests>, order: seq<ChainID>,
                          batches: seq<seq<Database.Write>>)
    requires InOrder(hash, my, requests.Keys, order)
    ensures Sorted(Ids(ApplyCall(hash, my, requests, order, batches).parts))
  {
  }

  // There is one such order.
  lemma {:induction false} OneOrder(hash: Hash, my: ChainID, peers: set<ChainID>, a: seq<ChainID>, b: seq<ChainID>)
    requires InOrder(hash, my, peers, a) && InOrder(hash, my, peers, b)
    ensures a == b
    decreases |a|
  {
    if a == [] {
      SomeMember(b);
    } else {
      assert a[0] in b;
      assert b[0] in a;
      var rest := peers - {a[0]};
      assert a == [a[0]] + a[1..] && b == [b[0]] + b[1..];
      assert a[0] == b[0];
      Shorter(hash, my, peers, a);
      Shorter(hash, my, peers, b);
      OneOrder(hash, my, rest, a[1..], b[1..]);
    }
  }

  lemma SomeMember(s: seq<ChainID>)
    ensures s != [] ==> exists p :: p in s
  {
    if s != [] {
      assert s[0] in s;
    }
  }

  lemma Shorter(hash: Hash, my: ChainID, peers: set<ChainID>, a: seq<ChainID>)
    requires InOrder(hash, my, peers, a) && a != []
    ensures InOrder(hash, my, peers - {a[0]}, a[1..])
  {
    assert forall j | 0 < j < |a| :: a[j] != a[0];
    assert a == [a[0]] + a[1..];
  }

  // ---------- Step by step ----------

  lemma NextOp(space: Space, ops: seq<Request>, i: nat, current: Space, replies: seq<Answer>)
    requires i < |ops| && RunOps(Perform, space, ops[..i]) == Ran(current, replies)
    ensures RunOps(Perform, space, ops[..i + 1]) ==
            match Perform(current, ops[i])
            case Refused => Stuck
            case Accepted(writes, reply) => Ran(Patch(current, writes), replies + [reply])
  {
    assert ops[..i + 1][..i] == ops[..i];
  }

  lemma {:induction false} RunOpsConcat<K, V, O, R>(run: Semantics<K, V, O, R>, space: map<K, V>, a: seq<O>, b: seq<O>)
    ensures RunOps(run, space, a + b) ==
            match RunOps(run, space, a)
            case Stuck => Stuck
            case Ran(current, replies) =>
              match RunOps(run, current, b)
              case Stuck => Stuck
              case Ran(end, more) => Ran(end, replies + more)
  {
    if b == [] {
      assert a + b == a;
    } else {
      assert (a + b)[..|a + b| - 1] == a + b[..|b| - 1];
      RunOpsConcat(run, space, a, b[..|b| - 1]);
    }
  }

  lemma PatchOne(space: Space, c: Cell, v: Content)
    ensures Patch(space, map[c := Some(v)]) == space[c := v]
  {
  }

  lemma {:induction false} StuckFrom(space: Space, ops: seq<Request>, n: nat)
    requires n <= |ops| && RunOps(Perform, space, ops[..n]) == Stuck
    ensures RunOps(Perform, space, ops) == Stuck
  {
    if n == |ops| {
      assert ops[..n] == ops;
    } else {
      assert ops[..|ops| - 1][..n] == ops[..n];
      StuckFrom(space, ops[..|ops| - 1], n);
    }
  }

  lemma {:induction false} PartsStuckFrom(spaces: map<SharedID, Space>, parts: seq<Part<Request>>, n: nat)
    requires n <= |parts| && RunParts(Perform, spaces, parts[..n]) == StuckAll
    ensures RunParts(Perform, spaces, parts) == StuckAll
  {
    if n == |parts| {
      assert parts[..n] == parts;
    } else {
      assert parts[..|parts| - 1][..n] == parts[..n];
      PartsStuckFrom(spaces, parts[..|parts| - 1], n);
    }
  }

  function AfterWrites(rest: Space, ws: seq<Database.Write>): Space {
    if ws == [] then rest
    else
      var before, w := AfterWrites(rest, ws[..|ws| - 1]), ws[|ws| - 1];
      if w.Put? then before[Raw(w.key) := Data(w.value)] else before - {Raw(w.key)}
  }

  // Replaying the writes in order is writing the last one to each key.
  lemma {:induction false} BatchesInOrder(rest: Space, ws: seq<Database.Write>)
    ensures Patch(rest, Net(ws)) == AfterWrites(rest, ws)
  {
    if ws == [] {
      assert Patch(rest, Net(ws)) == rest;
    } else {
      BatchesInOrder(rest, ws[..|ws| - 1]);
      PatchOneMore(rest, Net(ws[..|ws| - 1]), ws[|ws| - 1]);
    }
  }

  lemma PatchOneMore(rest: Space, net: map<Cell, Option<Content>>, w: Database.Write)
    ensures var before := Patch(rest, net);
            Patch(rest, net[Raw(w.key) := if w.Put? then Some(Data(w.value)) else None]) ==
            if w.Put? then before[Raw(w.key) := Data(w.value)] else before - {Raw(w.key)}
  {
  }

  predicate AtMost(a: SharedID, b: SharedID) {
    a <= b
  }

  // The peers seen so far, by their distinct shared IDs.
  ghost predicate Collected(hash: Hash, my: ChainID, peers: set<ChainID>, ids: seq<SharedID>,
                            peerOf: map<SharedID, ChainID>) {
    && (forall i, j | 0 <= i < j < |ids| :: ids[i] != ids[j])
    && (forall id | id in ids :: id in peerOf && peerOf[id] in peers && SharedIDOf(hash, my, peerOf[id]) == id)
    && forall p | p in peers :: SharedIDOf(hash, my, p) in ids && peerOf[SharedIDOf(hash, my, p)] == p
  }

  lemma SortedDistinct(ids: seq<SharedID>, sorted: seq<SharedID>)
    requires (forall i, j | 0 <= i < j < |ids| :: ids[i] != ids[j]) && sorted == Sort(ids, AtMost)
    ensures Sorted(sorted) && forall x :: x in sorted <==> x in ids
  {
    SortOrdered(ids, AtMost);
    SortMembers(ids, AtMost);
    SortDistinct(ids, AtMost);
    assert forall i, j | 0 <= i < j < |sorted| :: AtMost(sorted[i], sorted[j]);
  }

  lemma CollectOne(hash: Hash, my: ChainID, peers: set<ChainID>, ids: seq<SharedID>, peerOf: map<SharedID, ChainID>,
                   peer: ChainID)
    requires Collected(hash, my, peers, ids, peerOf) && peer !in peers && NoCollisions(hash, my, peers + {peer})
    ensures var id := SharedIDOf(hash, my, peer); Collected(hash, my, peers + {peer}, ids + [id], peerOf[id := peer])
  {
    var id := SharedIDOf(hash, my, peer);
    assert id !in ids;
    var ids' := ids + [id];
    forall i, j | 0 <= i < j < |ids'|
      ensures ids'[i] != ids'[j]
    {
      assert ids'[i] == ids[i];
    }
  }

  lemma SortedIDs(hash: Hash, my: ChainID, peers: set<ChainID>, ids: seq<SharedID>, peerOf: map<SharedID, ChainID>)
    requires Collected(hash, my, peers, ids, peerOf)
    ensures var sorted := Sort(ids, AtMost);
            && (forall i | 0 <= i < |sorted| :: sorted[i] in peerOf)
            && InOrder(hash, my, peers,
                       seq(|sorted|, i requires 0 <= i < |sorted| && sorted[i] in peerOf => peerOf[sorted[i]]))
  {
    var sorted := Sort(ids, AtMost);
    SortedDistinct(ids, sorted);
    forall i | 0 <= i < |sorted|
      ensures sorted[i] in peerOf && SharedIDOf(hash, my, peerOf[sorted[i]]) == sorted[i] && peerOf[sorted[i]] in peers
    {
      var id := sorted[i];
      assert id in ids;
    }
    var order := seq(|sorted|, i requires 0 <= i < |sorted| && sorted[i] in peerOf => peerOf[sorted[i]]);
    forall p | p in peers
      ensures p in order
    {
      var id := SharedIDOf(hash, my, p);
      assert id in sorted;
      var i :| 0 <= i < |sorted| && sorted[i] == id;
      assert order[i] == p;
    }
  }

  // ---------- Apply run by one chain ----------

  class Memory {
    const hash: Hash
    // Whether the final batch write may fail.
    const flaky: bool
    var store: Store<Cell, Content>

    constructor (hash: Hash, flaky: bool, store: Store<Cell, Content>)
      ensures this.hash == hash && this.flaky == flaky && this.store == store
    {
      this.hash, this.flaky, this.store := hash, flaky, store;
    }

    method Faults() returns (failed: bool)
      ensures failed ==> flaky
    {
      if * {
        failed := flaky;
      } else {
        failed := false;
      }
    }

    method ApplyRemoves(space: Space, box: Box, keys: seq<Key>) returns (r: Ran<Cell, Content, Answer>)
      ensures r == RunOps(Perform, space, Removals(box, keys))
    {
      var current, replies: seq<Answer> := space, [];
      ghost var ops := Removals(box, keys);
      for i := 0 to |keys|
        invariant RunOps(Perform, space, ops[..i]) == Ran(current, replies)
      {
        var m := RemoveValue(MailboxAt(current, box), keys[i]);
        NextOp(space, ops, i, current, replies);
        if m.Err? {
          StuckFrom(space, ops, i + 1);
          return Stuck;
        }
        PatchOne(current, At(box), Mailed(m.value));
        current, replies := current[At(box) := Mailed(m.value)], replies + [Done];
      }
      assert ops[..|ops|] == ops;
      return Ran(current, replies);
    }

    method ApplyPuts(space: Space, box: Box, elements: seq<Element>) returns (r: Ran<Cell, Content, Answer>)
      ensures r == RunOps(Perform, space, Additions(box, elements))
    {
      var current, replies: seq<Answer> := space, [];
      ghost var ops := Additions(box, elements);
      for i := 0 to |elements|
        invariant RunOps(Perform, space, ops[..i]) == Ran(current, replies)
      {
        var m := SetValue(MailboxAt(current, box), elements[i]);
        NextOp(space, ops, i, current, replies);
        if m.Err? {
          StuckFrom(space, ops, i + 1);
          return Stuck;
        }
        PatchOne(current, At(box), Mailed(m.value));
        current, replies := current[At(box) := Mailed(m.value)], replies + [Done];
      }
      assert ops[..|ops|] == ops;
      return Ran(current, replies);
    }

    // The requests of one peer, on the overlay's view of their shared database.
    method ApplyRequests(space: Space, my: ChainID, peer: ChainID, req: Requests)
      returns (r: Ran<Cell, Content, Answer>)
      ensures r == RunOps(Perform, space, RequestOps(my, peer, req))
    {
      RunOpsConcat(Perform, space, Removals(Inbox(my, peer), req.removes), Additions(Outbox(my, peer), req.puts));
      r := ApplyRemoves(space, Inbox(my, peer), req.removes);
      if r.Ran? {
        var more := ApplyPuts(r.space, Outbox(my, peer), req.puts);
        r := if more.Stuck? then Stuck else Ran(more.space, r.replies + more.replies);
      }
    }

    // The peers' shared IDs and requests, and the order of locking.
    method LockOrder(my: ChainID, requests: map<ChainID, Requests>) returns (order: seq<ChainID>)
      requires NoCollisions(hash, my, requests.Keys)
      ensures InOrder(hash, my, requests.Keys, order)
    {
      var sharedIDs: seq<SharedID>, peerOf: map<SharedID, ChainID> := [], map[];
      var left := requests.Keys;
      while left != {}
        invariant left <= requests.Keys && Collected(hash, my, requests.Keys - left, sharedIDs, peerOf)
      {
        var peer :| peer in left;
        var id := SharedIDOf(hash, my, peer);
        CollectOne(hash, my, requests.Keys - left, sharedIDs, peerOf, peer);
        assert requests.Keys - (left - {peer}) == (requests.Keys - left) + {peer};
        sharedIDs, peerOf, left := sharedIDs + [id], peerOf[id := peer], left - {peer};
      }
      assert requests.Keys - left == requests.Keys;
      SortedIDs(hash, my, requests.Keys, sharedIDs, peerOf);
      sharedIDs := Sort(sharedIDs, AtMost);
      order := seq(|sharedIDs|, i requires 0 <= i < |sharedIDs| && sharedIDs[i] in peerOf => peerOf[sharedIDs[i]]);
    }

    // All peers' requests on the overlay, in order.
    method ApplyAll(my: ChainID, requests: map<ChainID, Requests>, order: seq<ChainID>)
      returns (r: RanAll<Cell, Content, Answer>)
      requires forall p | p in order :: p in requests
      ensures r == RunParts(Perform, store.spaces, ApplyParts(hash, my, requests, order))
    {
      ghost var parts := ApplyParts(hash, my, requests, order);
      // The base store does not change.
      var overlay, replies: seq<seq<Answer>> := store.spaces, [];
      for i := 0 to |order|
        invariant RunParts(Perform, store.spaces, parts[..i]) == RanAll(overlay, replies)
      {
        var peer := order[i];
        assert peer in order && parts[..i + 1][..i] == parts[..i];
        var id := SharedIDOf(hash, my, peer);
        var ran := ApplyRequests(SpaceOf(overlay, id), my, peer, requests[peer]);
        if ran.Stuck? {
          PartsStuckFrom(store.spaces, parts, i + 1);
          return StuckAll;
        }
        overlay := overlay[id := ran.space];
        replies := replies + [ran.replies];
      }
      assert parts[..|order|] == parts;
      return RanAll(overlay, replies);
    }

    // Either nothing changes, or every remove, put and batch write has taken effect.
    method Apply(my: ChainID, requests: map<ChainID, Requests>, batches: seq<seq<Database.Write>>)
      returns (reply: Reply<Answer>, order: seq<ChainID>)
      requires NoCollisions(hash, my, requests.Keys)
      modifies `store
      ensures InOrder(hash, my, requests.Keys, order)
      ensures if reply == WriteFailed then flaky && store == old(store)
              else (store, reply) == Serial(Perform, old(store), ApplyCall(hash, my, requests, order, batches))
    {
      order := LockOrder(my, requests);
      var ran := ApplyAll(my, requests, order);
      if ran.StuckAll? {
        return Rejected, order;
      }
      var written := WriteAll(batches);
      var failed := Faults();
      if failed {
        return WriteFailed, order;
      }
      BatchesInOrder(store.rest, written);
      store := Store(ran.spaces, AfterWrites(store.rest, written));
      reply := Success(ran.replies);
    }

    // The writes of the batches, replayed one batch after the other onto the final batch.
    method WriteAll(batches: seq<seq<Database.Write>>) returns (written: seq<Database.Write>)
      ensures written == Flatten(batches)
    {
      written := [];
      for i := 0 to |batches|
        invariant written == Flatten(batches[..i])
      {
        assert batches[..i + 1][..i] == batches[..i];
        written := written + batches[i];
      }
      assert batches[..|batches|] == batches;
    }
  }
}
