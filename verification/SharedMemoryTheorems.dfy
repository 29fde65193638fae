/**
 What calls on shared memory mean for the two chains: who reads what whom put, and that in every
 concurrent run the trait indexes stay exact, so that Indexed always succeeds.
 */
module SharedMemoryTheorems {
  import opened Wrappers
  import opened Bytes
  import opened Entries
  import opened LinkedList
  import opened Mail = Mailbox
  import opened Locks
  import opened Serializability
  import opened SerializabilityProof
  import opened SharedMemory
  import Pagination
  import Database

  // ---------- One peer's requests ----------

  function RemoveOps(keys: seq<Key>): seq<Op> {
    seq(|keys|, i requires 0 <= i < |keys| => Remove(keys[i]))
  }

  function PutOps(elements: seq<Element>): seq<Op> {
    seq(|elements|, i requires 0 <= i < |elements| => Put(elements[i]))
  }

  ghost predicate OnlyBox(space: Space, space': Space, box: Box) {
    forall b {:trigger MailboxAt(space', b)} | b != box :: MailboxAt(space', b) == MailboxAt(space, b)
  }

  function OnBox(box: Box, ops: seq<Op>): seq<Request> {
    seq(|ops|, i requires 0 <= i < |ops| => if ops[i].Put? then Addition(box, ops[i].element)
        else Removal(box, ops[i].key))
  }

  lemma OnlyBoxStep(start: Space, space: Space, box: Box, m: Mailbox)
    requires OnlyBox(start, space, box)
    ensures var space' := Patch(space, map[At(box) := Some(Mailed(m))]);
            MailboxAt(space', box) == m && OnlyBox(start, space', box)
  {
    var space' := Patch(space, map[At(box) := Some(Mailed(m))]);
    forall b | b != box
      ensures MailboxAt(space', b) == MailboxAt(start, b)
    {
      assert MailboxAt(space', b) == MailboxAt(space, b);
    }
  }

  // Puts and removes on one box run as on the mailbox in it.
  lemma {:induction false} OnBoxMeaning(space: Space, box: Box, ops: seq<Op>)
    ensures var r, m := RunOps(Perform, space, OnBox(box, ops)), Run(MailboxAt(space, box), ops);
            && (r.Ran? <==> m.Ok?)
            && (r.Ran? ==> MailboxAt(r.space, box) == m.value && OnlyBox(space, r.space, box))
  {
    if ops != [] {
      var init, last := ops[..|ops| - 1], ops[|ops| - 1];
      OnBoxMeaning(space, box, init);
      assert OnBox(box, ops)[..|ops| - 1] == OnBox(box, init);
      var before := RunOps(Perform, space, OnBox(box, init));
      if before.Ran? {
        var m := Apply(MailboxAt(before.space, box), last);
        if m.Ok? {
          OnlyBoxStep(space, before.space, box, m.value);
        }
      }
    }
  }

  // The removes act on the inbox alone and the puts on the outbox alone; the requests succeed exactly
  // when all of both do.
  lemma RequestsMeaning(space: Space, my: ChainID, peer: ChainID, req: Requests)
    ensures var r := RunOps(Perform, space, RequestOps(my, peer, req));
            var inbox := Run(MailboxAt(space, Inbox(my, peer)), RemoveOps(req.removes));
            var outbox := Run(MailboxAt(space, Outbox(my, peer)), PutOps(req.puts));
            && (r.Ran? <==> inbox.Ok? && outbox.Ok?)
            && (r.Ran? ==> && MailboxAt(r.space, Inbox(my, peer)) == inbox.value
                           && MailboxAt(r.space, Outbox(my, peer)) == outbox.value)
  {
    DirectionsApart(my, peer);
    var removes, puts := RemoveOps(req.removes), PutOps(req.puts);
    assert Removals(Inbox(my, peer), req.removes) == OnBox(Inbox(my, peer), removes);
    assert Additions(Outbox(my, peer), req.puts) == OnBox(Outbox(my, peer), puts);
    TwoBoxes(space, Inbox(my, peer), removes, Outbox(my, peer), puts);
  }

  // Operations on one box and then on another one.
  lemma TwoBoxes(space: Space, a: Box, before: seq<Op>, b: Box, after: seq<Op>)
    requires a != b
    ensures var r := RunOps(Perform, space, OnBox(a, before) + OnBox(b, after));
            var first, second := Run(MailboxAt(space, a), before), Run(MailboxAt(space, b), after);
            && (r.Ran? <==> first.Ok? && second.Ok?)
            && (r.Ran? ==> MailboxAt(r.space, a) == first.value && MailboxAt(r.space, b) == second.value)
  {
    RunOpsConcat(Perform, space, OnBox(a, before), OnBox(b, after));
    OnBoxMeaning(space, a, before);
    var first := RunOps(Perform, space, OnBox(a, before));
    if first.Ran? {
      OnBoxMeaning(first.space, b, after);
      assert MailboxAt(first.space, b) == MailboxAt(space, b);
      assert RunOps(Perform, first.space, OnBox(b, after)).Ran? ==>
          MailboxAt(RunOps(Perform, first.space, OnBox(b, after)).space, a) == MailboxAt(first.space, a);
    }
  }

  // ---------- A whole Apply ----------

  // Each part runs on its own shared database.
  lemma {:induction false} PartOutcome<K, V, O, R>(run: Semantics<K, V, O, R>,
                                                   spaces: map<SharedID, map<K, V>>, parts: seq<Part<O>>, i: nat)
    requires DistinctParts(parts) && i < |parts| && RunParts(run, spaces, parts).RanAll?
    ensures RunOps(run, SpaceOf(spaces, parts[i].id), parts[i].ops).Ran?
    ensures RunOps(run, SpaceOf(spaces, parts[i].id), parts[i].ops).space ==
            SpaceOf(RunParts(run, spaces, parts).spaces, parts[i].id)
  {
    var n := |parts| - 1;
    var init := parts[..n];
    if i == n {
      OtherPart(run, spaces, init, parts[n].id);
    } else {
      PartOutcome(run, spaces, init, i);
      assert init[i] == parts[i];
    }
  }

  ghost predicate DistinctParts<O>(parts: seq<Part<O>>) {
    forall j, k | 0 <= j < k < |parts| :: parts[j].id < parts[k].id
  }

  lemma {:induction false} OtherPart<K, V, O, R>(run: Semantics<K, V, O, R>,
                                                 spaces: map<SharedID, map<K, V>>, parts: seq<Part<O>>, id: SharedID)
    requires RunParts(run, spaces, parts).RanAll? && forall i | 0 <= i < |parts| :: parts[i].id != id
    ensures SpaceOf(RunParts(run, spaces, parts).spaces, id) == SpaceOf(spaces, id)
  {
    if parts != [] {
      OtherPart(run, spaces, parts[..|parts| - 1], id);
    }
  }

  // All parts run together when each runs on its own.
  lemma {:induction false} EachPartRuns<K, V, O, R>(run: Semantics<K, V, O, R>,
                                                    spaces: map<SharedID, map<K, V>>, parts: seq<Part<O>>)
    requires DistinctParts(parts)
    requires forall i | 0 <= i < |parts| :: RunOps(run, SpaceOf(spaces, parts[i].id), parts[i].ops).Ran?
    ensures RunParts(run, spaces, parts).RanAll?
  {
    if parts != [] {
      var init, last := parts[..|parts| - 1], parts[|parts| - 1];
      EachPartRuns(run, spaces, init);
      OtherPart(run, spaces, init, last.id);
    }
  }

  ghost function InboxOf(store: Store<Cell, Content>, hash: Hash, my: ChainID, peer: ChainID): Mailbox {
    MailboxAt(SpaceOf(store.spaces, SharedIDOf(hash, peer, my)), Inbox(my, peer))
  }

  // A part for each peer, in the order of the locks.
  lemma PartsOfApply(hash: Hash, a: ChainID, requests: map<ChainID, Requests>, order: seq<ChainID>)
    requires InOrder(hash, a, requests.Keys, order)
    ensures var parts := ApplyParts(hash, a, requests, order);
            && DistinctParts(parts)
            && forall i | 0 <= i < |parts| ::
                 order[i] in requests
                 && parts[i] == Part(SharedIDOf(hash, a, order[i]), RequestOps(a, order[i], requests[order[i]]))
  {
    forall i | 0 <= i < |order|
      ensures order[i] in requests
    {
      assert order[i] in order;
    }
  }

  // The removes and the puts of a for b would succeed on their own.
  ghost predicate Accepts(store: Store<Cell, Content>, hash: Hash, a: ChainID, b: ChainID, req: Requests) {
    && Run(InboxOf(store, hash, a, b), RemoveOps(req.removes)).Ok?
    && Run(InboxOf(store, hash, b, a), PutOps(req.puts)).Ok?
  }

  // What a's requests for b do to the two inboxes.
  lemma PeerOutcome(hash: Hash, store: Store<Cell, Content>, a: ChainID, b: ChainID, req: Requests)
    requires a != b
    ensures var r := RunOps(Perform, SpaceOf(store.spaces, SharedIDOf(hash, a, b)), RequestOps(a, b, req));
            && (r.Ran? <==> Accepts(store, hash, a, b, req))
            && (r.Ran? ==> && Run(InboxOf(store, hash, b, a), PutOps(req.puts)) == Ok(MailboxAt(r.space, Inbox(b, a)))
                           && Run(InboxOf(store, hash, a, b), RemoveOps(req.removes)) ==
                               Ok(MailboxAt(r.space, Inbox(a, b))))
  {
    RequestsMeaning(SpaceOf(store.spaces, SharedIDOf(hash, a, b)), a, b, req);
    SharedIDSymmetric(hash, a, b);
    Mirrored(a, b);
  }

  // Apply succeeds exactly when every peer's removes and puts do.
  lemma AppliedTogether(hash: Hash, store: Store<Cell, Content>, a: ChainID, requests: map<ChainID, Requests>,
                        order: seq<ChainID>, batches: seq<seq<Database.Write>>)
    requires InOrder(hash, a, requests.Keys, order) && a !in requests
    ensures Serial(Perform, store, ApplyCall(hash, a, requests, order, batches)).1.Success? <==>
            forall b | b in requests :: Accepts(store, hash, a, b, requests[b])
  {
    var parts := ApplyParts(hash, a, requests, order);
    PartsOfApply(hash, a, requests, order);
    if RunParts(Perform, store.spaces, parts).RanAll? {
      forall b | b in requests
        ensures Accepts(store, hash, a, b, requests[b])
      {
        var i :| 0 <= i < |order| && order[i] == b;
        PartOutcome(Perform, store.spaces, parts, i);
        PeerOutcome(hash, store, a, b, requests[b]);
      }
    } else if forall b | b in requests :: Accepts(store, hash, a, b, requests[b]) {
      forall i | 0 <= i < |parts|
        ensures RunOps(Perform, SpaceOf(store.spaces, parts[i].id), parts[i].ops).Ran?
      {
        PeerOutcome(hash, store, a, order[i], requests[order[i]]);
      }
      EachPartRuns(Perform, store.spaces, parts);
    }
  }

  // After a successful Apply by a, each peer's inbox has received exactly a's puts for it, a's own inbox
  // has lost exactly a's removes, and the databases a shares with others are untouched.
  lemma Delivered(hash: Hash, store: Store<Cell, Content>, a: ChainID, requests: map<ChainID, Requests>,
                  order: seq<ChainID>, batches: seq<seq<Database.Write>>)
    requires InOrder(hash, a, requests.Keys, order) && a !in requests
    requires Serial(Perform, store, ApplyCall(hash, a, requests, order, batches)).1.Success?
    ensures var store' := Serial(Perform, store, ApplyCall(hash, a, requests, order, batches)).0;
            && (forall b | b in requests ::
                  && Run(InboxOf(store, hash, b, a), PutOps(requests[b].puts)) == Ok(InboxOf(store', hash, b, a))
                  && Run(InboxOf(store, hash, a, b), RemoveOps(requests[b].removes)) == Ok(InboxOf(store', hash, a, b)))
            && (forall id | (forall b | b in requests :: SharedIDOf(hash, a, b) != id) ::
                  SpaceOf(store'.spaces, id) == SpaceOf(store.spaces, id))
  {
    var store' := Serial(Perform, store, ApplyCall(hash, a, requests, order, batches)).0;
    forall b | b in requests
      ensures Run(InboxOf(store, hash, b, a), PutOps(requests[b].puts)) == Ok(InboxOf(store', hash, b, a))
      ensures Run(InboxOf(store, hash, a, b), RemoveOps(requests[b].removes)) == Ok(InboxOf(store', hash, a, b))
    {
      DeliveredTo(hash, store, a, requests, order, batches, b);
    }
    forall id | forall b | b in requests :: SharedIDOf(hash, a, b) != id
      ensures SpaceOf(store'.spaces, id) == SpaceOf(store.spaces, id)
    {
      PartsOfApply(hash, a, requests, order);
      OtherPart(Perform, store.spaces, ApplyParts(hash, a, requests, order), id);
    }
  }

  lemma DeliveredTo(hash: Hash, store: Store<Cell, Content>, a: ChainID, requests: map<ChainID, Requests>,
                    order: seq<ChainID>, batches: seq<seq<Database.Write>>, b: ChainID)
    requires InOrder(hash, a, requests.Keys, order) && b in requests && a != b
    requires Serial(Perform, store, ApplyCall(hash, a, requests, order, batches)).1.Success?
    ensures var store' := Serial(Perform, store, ApplyCall(hash, a, requests, order, batches)).0;
            && Run(InboxOf(store, hash, b, a), PutOps(requests[b].puts)) == Ok(InboxOf(store', hash, b, a))
            && Run(InboxOf(store, hash, a, b), RemoveOps(requests[b].removes)) == Ok(InboxOf(store', hash, a, b))
  {
    var parts := ApplyParts(hash, a, requests, order);
    var i :| 0 <= i < |order| && order[i] == b;
    PartsOfApply(hash, a, requests, order);
    PartOutcome(Perform, store.spaces, parts, i);
    PeerOutcome(hash, store, a, b, requests[b]);
    SharedIDSymmetric(hash, a, b);
  }

  // A Get reads one value per key, in order, or fails if some key is not there.
  lemma {:induction false} ReadsMeaning(space: Space, box: Box, keys: seq<Key>)
    ensures var r, values := RunOps(Perform, space, Reads(box, keys)), Pagination.ValuesOf(MailboxAt(space, box), keys);
            && (r.Ran? <==> values.Ok?)
            && (r.Ran? ==> r.space == space && |r.replies| == |values.value| == |keys|
                           && forall i | 0 <= i < |keys| :: r.replies[i] == Answer.Value(values.value[i]))
  {
    if keys != [] {
      var init := keys[..|keys| - 1];
      ReadsMeaning(space, box, init);
      assert Reads(box, keys)[..|keys| - 1] == Reads(box, init);
      assert Patch(space, map[]) == space;
    }
  }

  lemma OnePart(spaces: map<SharedID, Space>, part: Part<Request>)
    ensures RunParts(Perform, spaces, [part]) ==
            match RunOps(Perform, SpaceOf(spaces, part.id), part.ops)
            case Stuck => StuckAll
            case Ran(space, replies) => RanAll(spaces[part.id := space], [replies])
  {
    assert [part][..0] == [];
  }

  lemma GetMeaning(hash: Hash, store: Store<Cell, Content>, my: ChainID, peer: ChainID, keys: seq<Key>)
    ensures var r, values :=
            Serial(Perform, store, GetCall(hash, my, peer, keys)).1,
            Pagination.ValuesOf(InboxOf(store, hash, my, peer), keys);
            && (r.Success? <==> values.Ok?)
            && (r.Success? ==> |r.replies| == 1 && |r.replies[0]| == |values.value| == |keys|
                               && forall i | 0 <= i < |keys| :: r.replies[0][i] == Answer.Value(values.value[i]))
  {
    var call := GetCall(hash, my, peer, keys);
    OnePart(store.spaces, call.parts[0]);
    ReadsMeaning(SpaceOf(store.spaces, call.parts[0].id), Inbox(my, peer), keys);
  }

  lemma OnePut(m: Mailbox, e: Element)
    ensures PutOps([e]) == [Put(e)] && RemoveOps([]) == [] && Run(m, []) == Ok(m) && Run(m, [Put(e)]) == SetValue(m, e)
  {
    assert [Put(e)][..0] == [];
  }

  lemma PutSucceeds(hash: Hash, store: Store<Cell, Content>, a: ChainID, b: ChainID, e: Element,
                    batches: seq<seq<Database.Write>>)
    requires a != b && e.key !in InboxOf(store, hash, b, a).values && Marshals(Mail.Stored(e))
    ensures Serial(Perform, store, ApplyCall(hash, a, map[b := Requests([], [e])], [b], batches)).1.Success?
  {
    var requests := map[b := Requests([], [e])];
    var parts := ApplyParts(hash, a, requests, [b]);
    var space := SpaceOf(store.spaces, parts[0].id);
    assert parts == [parts[0]];
    OnePart(store.spaces, parts[0]);
    RequestsMeaning(space, a, b, requests[b]);
    SharedIDSymmetric(hash, a, b);
    Mirrored(a, b);
    OnePut(MailboxAt(space, Outbox(a, b)), e);
    OnePut(MailboxAt(space, Inbox(a, b)), e);
  }

  lemma {:induction false} OtherKeysPut(m: Mailbox, puts: seq<Element>, key: Key)
    requires Run(m, PutOps(puts)).Ok? && forall e | e in puts :: e.key != key
    ensures key in Run(m, PutOps(puts)).value.values <==> key in m.values
  {
    if puts != [] {
      var init := puts[..|puts| - 1];
      assert PutOps(puts)[..|puts| - 1] == PutOps(init);
      assert puts[|puts| - 1] in puts;
      OtherKeysPut(m, init, key);
    }
  }

  // What is put under a key without value or tombstone is there after all puts.
  lemma {:induction false} PutIsThere(m: Mailbox, puts: seq<Element>, e: Element)
    requires Run(m, PutOps(puts)).Ok? && e in puts && e.key !in m.values
    ensures var values := Run(m, PutOps(puts)).value.values; e.key in values && values[e.key] == Mail.Stored(e)
    decreases |puts|
  {
    var init, last := puts[..|puts| - 1], puts[|puts| - 1];
    assert PutOps(puts)[..|puts| - 1] == PutOps(init);
    if x :| x in init && x.key == e.key {
      PutIsThere(m, init, x);
      assert last.key != e.key;
      assert e in init;
      PutIsThere(m, init, e);
    } else {
      OtherKeysPut(m, init, e.key);
    }
  }

  // What a puts for b under a fresh key in any successful Apply, b can get.
  lemma PutThenGet(hash: Hash, store: Store<Cell, Content>, a: ChainID, requests: map<ChainID, Requests>,
                   order: seq<ChainID>, batches: seq<seq<Database.Write>>, b: ChainID, e: Element)
    requires InOrder(hash, a, requests.Keys, order) && b in requests && a != b
    requires Serial(Perform, store, ApplyCall(hash, a, requests, order, batches)).1.Success?
    requires e in requests[b].puts && e.key !in InboxOf(store, hash, b, a).values
    ensures var store' := Serial(Perform, store, ApplyCall(hash, a, requests, order, batches)).0;
            Serial(Perform, store', GetCall(hash, b, a, [e.key])).1 == Success([[Answer.Value(e.value)]])
  {
    var store' := Serial(Perform, store, ApplyCall(hash, a, requests, order, batches)).0;
    DeliveredTo(hash, store, a, requests, order, batches, b);
    PutIsThere(InboxOf(store, hash, b, a), requests[b].puts, e);
    GetOne(hash, store', b, a, e);
  }

  // One put under a fresh key succeeds and is read back.
  lemma OnePutThenGet(hash: Hash, store: Store<Cell, Content>, a: ChainID, b: ChainID, e: Element,
                      batches: seq<seq<Database.Write>>)
    requires a != b && e.key !in InboxOf(store, hash, b, a).values && Marshals(Mail.Stored(e))
    ensures var put := Serial(Perform, store, ApplyCall(hash, a, map[b := Requests([], [e])], [b], batches));
            && put.1.Success?
            && Serial(Perform, put.0, GetCall(hash, b, a, [e.key])).1 == Success([[Answer.Value(e.value)]])
  {
    PutSucceeds(hash, store, a, b, e, batches);
    PutThenGet(hash, store, a, map[b := Requests([], [e])], [b], batches, b, e);
  }

  lemma GetOne(hash: Hash, store: Store<Cell, Content>, my: ChainID, peer: ChainID, e: Element)
    requires var values := InboxOf(store, hash, my, peer).values; e.key in values && values[e.key] == Mail.Stored(e)
    ensures Serial(Perform, store, GetCall(hash, my, peer, [e.key])).1 == Success([[Answer.Value(e.value)]])
  {
    var m := InboxOf(store, hash, my, peer);
    assert [e.key][..0] == [] && Pagination.ValuesOf(m, [e.key]) == Ok([] + [e.value]);
    GetMeaning(hash, store, my, peer, [e.key]);
    var r := Serial(Perform, store, GetCall(hash, my, peer, [e.key])).1;
    assert r.replies == [r.replies[0]] && r.replies[0] == [r.replies[0][0]];
  }

  // Puts are never visible in the sender's own inboxes: one from which nothing is removed stays as it is,
  // whether or not the call names its peer.
  lemma OwnInboxUnchanged(hash: Hash, store: Store<Cell, Content>, a: ChainID, requests: map<ChainID, Requests>,
                          order: seq<ChainID>, batches: seq<seq<Database.Write>>, c: ChainID)
    requires InOrder(hash, a, requests.Keys, order) && a !in requests && a != c
    requires Serial(Perform, store, ApplyCall(hash, a, requests, order, batches)).1.Success?
    requires if c in requests then requests[c].removes == [] else NoCollisions(hash, a, requests.Keys + {c})
    ensures var store' := Serial(Perform, store, ApplyCall(hash, a, requests, order, batches)).0;
            InboxOf(store', hash, a, c) == InboxOf(store, hash, a, c)
  {
    Delivered(hash, store, a, requests, order, batches);
    SharedIDSymmetric(hash, a, c);
    if c in requests {
      assert RemoveOps([]) == [];
    } else {
      forall b | b in requests
        ensures SharedIDOf(hash, a, b) != SharedIDOf(hash, a, c)
      {
        assert b in requests.Keys + {c} && c in requests.Keys + {c};
      }
    }
  }

  // ---------- Every concurrent run ----------

  ghost predicate SpaceOk(space: Space) {
    forall box {:trigger MailboxAt(space, box)} :: IndexOk(MailboxAt(space, box))
  }

  ghost predicate SpacesOk(spaces: map<SharedID, Space>) {
    forall id {:trigger SpaceOf(spaces, id)} :: SpaceOk(SpaceOf(spaces, id))
  }

  lemma OpKeepsIndexes(space: Space, op: Request)
    requires SpaceOk(space) && Perform(space, op).Accepted?
    ensures SpaceOk(Patch(space, Perform(space, op).writes))
  {
    var space' := Patch(space, Perform(space, op).writes);
    var m := MailboxAt(space, op.box);
    if op.Removal? {
      RemoveKeepsIndex(m, op.key);
    } else if op.Addition? {
      SetKeepsIndex(m, op.element);
    }
    forall box
      ensures IndexOk(MailboxAt(space', box))
    {
      if box != op.box || op.Read? || op.Search? {
        assert MailboxAt(space', box) == MailboxAt(space, box);
      }
    }
  }

  lemma {:induction false} OpsKeepIndexes(space: Space, ops: seq<Request>)
    requires SpaceOk(space) && RunOps(Perform, space, ops).Ran?
    ensures SpaceOk(RunOps(Perform, space, ops).space)
  {
    if ops != [] {
      OpsKeepIndexes(space, ops[..|ops| - 1]);
      OpKeepsIndexes(RunOps(Perform, space, ops[..|ops| - 1]).space, ops[|ops| - 1]);
    }
  }

  lemma {:induction false} PartsKeepIndexes(spaces: map<SharedID, Space>, parts: seq<Part<Request>>)
    requires SpacesOk(spaces) && RunParts(Perform, spaces, parts).RanAll?
    ensures SpacesOk(RunParts(Perform, spaces, parts).spaces)
  {
    if parts != [] {
      var n := |parts| - 1;
      PartsKeepIndexes(spaces, parts[..n]);
      var before := RunParts(Perform, spaces, parts[..n]).spaces;
      assert SpaceOk(SpaceOf(before, parts[n].id));
      OpsKeepIndexes(SpaceOf(before, parts[n].id), parts[n].ops);
      var after := RunParts(Perform, spaces, parts).spaces;
      forall id
        ensures SpaceOk(SpaceOf(after, id))
      {
        assert SpaceOk(SpaceOf(before, id));
      }
    }
  }

  lemma {:induction false} ReplayKeepsIndexes(start: Store<Cell, Content>,
                                              events: seq<Event<Cell, Content, Request, Answer>>)
    requires SpacesOk(start.spaces)
    ensures SpacesOk(Replay(Perform, start, events).spaces)
  {
    if events != [] {
      var n := |events| - 1;
      ReplayKeepsIndexes(start, events[..n]);
      var before := Replay(Perform, start, events[..n]);
      if RunParts(Perform, before.spaces, events[n].call.parts).RanAll? {
        PartsKeepIndexes(before.spaces, events[n].call.parts);
      }
    }
  }

  lemma IndexedSucceeds(hash: Hash, store: Store<Cell, Content>, my: ChainID, peer: ChainID, traits: seq<Trait>,
                        startTrait: Trait, startKey: Key, limit: int)
    requires SpacesOk(store.spaces)
    ensures Serial(Perform, store, IndexedCall(hash, my, peer, traits, startTrait, startKey, limit)).1.Success?
  {
    var call := IndexedCall(hash, my, peer, traits, startTrait, startKey, limit);
    OnePart(store.spaces, call.parts[0]);
    var space := SpaceOf(store.spaces, call.parts[0].id);
    assert SpaceOk(space);
    var m := MailboxAt(space, Inbox(my, peer));
    Pagination.NeverDangling(m, traits, startTrait, startKey, limit);
    assert call.parts[0].ops[..0] == [];
    assert RunOps(Perform, space, call.parts[0].ops[..0]) == Ran(space, []);
  }

  // However calls interleave, every trait index is exact at every moment...
  lemma IndexesAlwaysExact(start: Store<Cell, Content>, actions: seq<Action<Cell, Content, Request>>)
    requires SpacesOk(start.spaces) && IsRun(Perform, Initial(start), actions)
    ensures SpacesOk(After(Perform, Initial(start), actions).store.spaces)
  {
    Serializable(Perform, start, actions);
    ReplayKeepsIndexes(start, After(Perform, Initial(start), actions).history);
  }

  // ... and every Indexed call that returns has succeeded.
  lemma IndexedAlwaysSucceeds(hash: Hash, start: Store<Cell, Content>, actions: seq<Action<Cell, Content, Request>>,
                              tid: Tid, my: ChainID, peer: ChainID, traits: seq<Trait>, startTrait: Trait,
                              startKey: Key, limit: int)
    requires SpacesOk(start.spaces) && IsRun(Perform, Initial(start), actions)
    requires var s := After(Perform, Initial(start), actions);
             tid in s.jobs && s.jobs[tid].reply.Some? &&
                 s.jobs[tid].call == IndexedCall(hash, my, peer, traits, startTrait, startKey, limit)
    ensures After(Perform, Initial(start), actions).jobs[tid].reply.value.Success?
  {
    var s := After(Perform, Initial(start), actions);
    Serializable(Perform, start, actions);
    assert RepliedInOrder(Perform, start, s, tid);
    ReadsAlongRun(Perform, Initial(start), actions);
    RepliedSuccess(hash, start, s, tid, my, peer, traits, startTrait, startKey, limit);
  }

  lemma RepliedSuccess(hash: Hash, start: Store<Cell, Content>, s: System<Cell, Content, Request, Answer>, tid: Tid,
                       my: ChainID, peer: ChainID, traits: seq<Trait>, startTrait: Trait, startKey: Key, limit: int)
    requires SpacesOk(start.spaces) && tid in s.jobs && s.jobs[tid].reply.Some? &&
             RepliedInOrder(Perform, start, s, tid)
    requires s.jobs[tid].reply != Some(WriteFailed) &&
             s.jobs[tid].call == IndexedCall(hash, my, peer, traits, startTrait, startKey, limit)
    ensures s.jobs[tid].reply.value.Success?
  {
    var e :| 0 <= e < |s.history| &&
        s.jobs[tid].reply == Some(Serial(Perform, Replay(Perform, start, s.history[..e]), s.jobs[tid].call).1);
    ReplayKeepsIndexes(start, s.history[..e]);
    IndexedSucceeds(hash, Replay(Perform, start, s.history[..e]), my, peer, traits, startTrait, startKey, limit);
  }
}
