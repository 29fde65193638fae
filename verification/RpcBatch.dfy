/**
 database/rpcdb: a batch is written to a remote database in several requests. The client goes through
 the writes backwards, drops overwritten ones, and sends the rest in chunks; the server collects the
 chunks of a batch and writes them when the last one arrives. Calls may fail on the way there or back,
 and collecting and writing on the server may fail.
 */
module RpcBatch {
  import opened Wrappers
  import opened Bytes
  import opened Database

  const BASE_ELEMENT_SIZE := 8
  const MAX_BATCH_SIZE := 128 * 1024

  datatype Request = Request(puts: seq<Write>, deletes: seq<Write>, continues: bool)

  // ---------- What replaying writes does to one key ----------

  function LastWrite(ws: seq<Write>, k: bytes): Option<Write> {
    if ws == [] then None
    else if ws[|ws| - 1].key == k then Some(ws[|ws| - 1])
    else LastWrite(ws[..|ws| - 1], k)
  }

  function Lookup(db: Store, k: bytes): Option<bytes> {
    if k in db then Some(db[k]) else None
  }

  lemma {:induction false} LookupAfter(db: Store, ws: seq<Write>, k: bytes)
    ensures Lookup(ApplyWrites(db, ws), k) ==
            match LastWrite(ws, k)
            case None => Lookup(db, k)
            case Some(w) => if w.Put? then Some(w.value) else None
  {
    if ws != [] {
      LookupAfter(db, ws[..|ws| - 1], k);
    }
  }

  lemma SameLookups(a: Store, b: Store)
    requires forall k :: Lookup(a, k) == Lookup(b, k)
    ensures a == b
  {
    assert forall k :: (k in a <==> Lookup(a, k).Some?) && (k in b <==> Lookup(b, k).Some?);
    assert forall k | k in a :: Lookup(a, k) == Some(a[k]) && Lookup(b, k) == Some(b[k]);
  }

  // ---------- Writes that are not overwritten ----------

  ghost predicate DistinctKeys(ws: seq<Write>) {
    forall i, j | 0 <= i < j < |ws| :: ws[i].key != ws[j].key
  }

  // `some` are exactly the last writes to each key.
  ghost predicate LastWrites(some: seq<Write>, ws: seq<Write>) {
    DistinctKeys(some) && forall w :: w in some <==> LastWrite(ws, w.key) == Some(w)
  }

  lemma {:induction false} DistinctLast(ws: seq<Write>, w: Write)
    requires DistinctKeys(ws) && w in ws
    ensures LastWrite(ws, w.key) == Some(w)
  {
    var last := ws[|ws| - 1];
    if w != last {
      var i :| 0 <= i < |ws| && ws[i] == w;
      assert w == ws[..|ws| - 1][i] && w.key != last.key;
      DistinctLast(ws[..|ws| - 1], w);
    }
  }

  lemma {:induction false} LastIsThere(ws: seq<Write>, k: bytes)
    ensures LastWrite(ws, k).Some? ==> LastWrite(ws, k).value in ws && LastWrite(ws, k).value.key == k
  {
    if ws != [] {
      LastIsThere(ws[..|ws| - 1], k);
    }
  }

  // Each key is touched once; in whatever order, the effect is that of replaying all writes.
  lemma AnyOrder(db: Store, some: seq<Write>, ws: seq<Write>)
    requires LastWrites(some, ws)
    ensures ApplyWrites(db, some) == ApplyWrites(db, ws)
  {
    forall k
      ensures Lookup(ApplyWrites(db, some), k) == Lookup(ApplyWrites(db, ws), k)
    {
      LookupAfter(db, some, k);
      LookupAfter(db, ws, k);
      LastIsThere(some, k);
      LastIsThere(ws, k);
      var w := LastWrite(ws, k);
      if w.Some? {
        assert w.value in some;
        DistinctLast(some, w.value);
      }
    }
    SameLookups(ApplyWrites(db, some), ApplyWrites(db, ws));
  }

  // A permutation of the last writes is as good.
  lemma Permuted(some: seq<Write>, other: seq<Write>, ws: seq<Write>)
    requires LastWrites(some, ws) && multiset(some) == multiset(other)
    ensures LastWrites(other, ws)
  {
    forall w
      ensures w in other <==> w in some
    {
      assert w in multiset(other) <==> w in multiset(some);
    }
    forall i, j | 0 <= i < j < |other|
      ensures other[i].key != other[j].key
    {
      assert other[i] in some && other[j] in some;
      TwoOfThem(some, other, i, j);
    }
  }

  // The effect of the last writes does not depend on their order.
  lemma AnyReordering(db: Store, some: seq<Write>, ws: seq<Write>)
    requires LastWrites(some, ws)
    ensures forall other | multiset(other) == multiset(some) :: ApplyWrites(db, other) == ApplyWrites(db, ws)
  {
    forall other | multiset(other) == multiset(some)
      ensures ApplyWrites(db, other) == ApplyWrites(db, ws)
    {
      Permuted(some, other, ws);
      AnyOrder(db, other, ws);
    }
  }

  lemma TwoOfThem(some: seq<Write>, other: seq<Write>, i: nat, j: nat)
    requires DistinctKeys(some) && multiset(some) == multiset(other) && i < j < |other| && other[i] in some &&
             other[j] in some
    ensures other[i].key != other[j].key
  {
    assert other == other[..i] + [other[i]] + other[i + 1..j] + [other[j]] + other[j + 1..];
    assert multiset(other) >= multiset{other[i], other[j]};
    AtMostOnce(some, other[i]);
    var a :| 0 <= a < |some| && some[a] == other[i];
    var b :| 0 <= b < |some| && some[b] == other[j];
    assert other[i] != other[j];
  }

  lemma {:induction false} AtMostOnce(ws: seq<Write>, w: Write)
    requires DistinctKeys(ws)
    ensures multiset(ws)[w] <= 1
  {
    if ws != [] {
      AtMostOnce(ws[1..], w);
      assert ws == [ws[0]] + ws[1..];
      if ws[0] == w {
        assert w !in ws[1..];
        assert multiset(ws[1..])[w] == 0;
      }
    }
  }

  lemma DistinctInserted(before: seq<Write>, w: Write, after: seq<Write>)
    requires DistinctKeys(before + after) && forall x | x in before + after :: x.key != w.key
    ensures DistinctKeys(before + [w] + after)
  {
    var some, more, n := before + after, before + [w] + after, |before|;
    forall i, j | 0 <= i < j < |more|
      ensures more[i].key != more[j].key
    {
      assert more[i] == if i < n then some[i] else if i == n then w else some[i - 1];
      assert more[j] == if j < n then some[j] else if j == n then w else some[j - 1];
      assert i == n ==> more[j] in some;
      assert j == n ==> more[i] in some;
    }
  }

  // One write further back: it is dropped when its key has been seen...
  lemma Overwritten(some: seq<Write>, w: Write, ws: seq<Write>)
    requires LastWrites(some, ws) && LastWrite(ws, w.key).Some?
    ensures LastWrites(some, [w] + ws)
  {
    forall x
      ensures x in some <==> LastWrite([w] + ws, x.key) == Some(x)
    {
      FirstAdded(w, ws, x.key);
    }
  }

  // ... and survives otherwise.
  lemma Survives(before: seq<Write>, w: Write, after: seq<Write>, ws: seq<Write>)
    requires LastWrites(before + after, ws) && LastWrite(ws, w.key).None?
    ensures LastWrites(before + [w] + after, [w] + ws)
  {
    DistinctInserted(before, w, after);
    forall x
      ensures x in before + [w] + after <==> LastWrite([w] + ws, x.key) == Some(x)
    {
      FirstAdded(w, ws, x.key);
      LastIsThere(ws, x.key);
      assert x in before + [w] + after <==> x == w || x in before + after;
    }
  }

  lemma {:induction false} FirstAdded(w: Write, ws: seq<Write>, k: bytes)
    ensures LastWrite([w] + ws, k) == if LastWrite(ws, k).None? && k == w.key then Some(w) else LastWrite(ws, k)
  {
    var all := [w] + ws;
    if ws == [] {
      assert all[..0] == [] && all[0] == w;
    } else {
      assert all[..|all| - 1] == [w] + ws[..|ws| - 1] && all[|all| - 1] == ws[|ws| - 1];
      FirstAdded(w, ws[..|ws| - 1], k);
    }
  }

  // ---------- Sizes ----------

  function SizeOf(w: Write): nat {
    BASE_ELEMENT_SIZE + |w.key| + if w.Put? then |w.value| else 0
  }

  function TotalSize(ws: seq<Write>): nat {
    if ws == [] then 0 else TotalSize(ws[..|ws| - 1]) + SizeOf(ws[|ws| - 1])
  }

  predicate SmallEnough(r: Request) {
    TotalSize(r.puts) + TotalSize(r.deletes) <= MAX_BATCH_SIZE || |r.puts| + |r.deletes| == 1
  }

  // ---------- The server ----------

  class Server {
    const flaky: bool
    var db: Store
    // Batches whose last request has not arrived.
    var batches: map<int, seq<Write>>

    constructor (flaky: bool, db: Store)
      ensures this.flaky == flaky && this.db == db && batches == map[]
    {
      this.flaky, this.db, batches := flaky, db, map[];
    }

    ghost function Collected(id: int): seq<Write>
      reads this
    {
      if id in batches then batches[id] else []
    }

    method Faults() returns (failed: bool)
      ensures failed ==> flaky
    {
      if * {
        failed := flaky;
      } else {
        failed := false;
      }
    }

    // Adds writes to the batch, which is freed when one of them fails.
    method Collect(id: int, ws: seq<Write>) returns (ok: bool)
      requires id in batches
      modifies `batches
      ensures forall other | other != id :: other in batches <==> other in old(batches)
      ensures forall other | other != id :: Collected(other) == old(Collected(other))
      ensures ok ==> id in batches && batches[id] == old(batches[id]) + ws
      ensures !ok ==> id !in batches && flaky
    {
      var i := 0;
      assert ws[..0] == [];
      while i < |ws|
        invariant 0 <= i <= |ws| && id in batches && batches[id] == old(batches[id]) + ws[..i]
        invariant forall other | other != id :: other in batches <==> other in old(batches)
        invariant forall other | other != id :: Collected(other) == old(Collected(other))
      {
        var failed := Faults();
        if failed {
          batches := batches - {id};
          return false;
        }
        assert ws[..i + 1] == ws[..i] + [ws[i]];
        batches := batches[id := batches[id] + [ws[i]]];
        i := i + 1;
      }
      assert ws[..|ws|] == ws;
      return true;
    }

    method WriteBatch(id: int, req: Request) returns (ok: bool)
      modifies this
      ensures forall other | other != id :: other in batches <==> other in old(batches)
      ensures forall other | other != id :: Collected(other) == old(Collected(other))
      ensures ok && req.continues ==> db == old(db) && Collected(id) == old(Collected(id)) + req.puts + req.deletes
      ensures ok && !req.continues ==> db == ApplyWrites(old(db), old(Collected(id)) + req.puts + req.deletes)
      ensures !ok ==> flaky && db == old(db)
      ensures id in batches <==> ok && req.continues
    {
      if id !in batches {
        batches := batches[id := []];
      }
      ok := Collect(id, req.puts);
      if !ok {
        return;
      }
      ok := Collect(id, req.deletes);
      if !ok || req.continues {
        return;
      }
      var batch := batches[id];
      batches := batches - {id};
      var failed := Faults();
      if failed {
        return false;
      }
      db := ApplyWrites(db, batch);
    }
  }

  // ---------- The client ----------

  // A call that may be lost on the way there, or whose answer may be lost.
  method Call(server: Server, id: int, req: Request) returns (ok: bool)
    modifies server
    ensures ok && req.continues ==>
              server.db == old(server.db) && server.Collected(id) == old(server.Collected(id)) + req.puts + req.deletes
    ensures ok && !req.continues ==>
              server.db == ApplyWrites(old(server.db), old(server.Collected(id)) + req.puts + req.deletes)
    ensures !ok ==> server.flaky
    ensures !ok && req.continues ==> server.db == old(server.db)
    ensures !ok && !req.continues ==>
      server.db == old(server.db) ||
          server.db == ApplyWrites(old(server.db), old(server.Collected(id)) + req.puts + req.deletes)
  {
    var lost := server.Faults();
    if lost {
      return false;
    }
    ok := server.WriteBatch(id, req);
    lost := server.Faults();
    if lost {
      ok := false;
    }
  }

  ghost function AllWrites(requests: seq<Request>): seq<Write> {
    if requests == [] then []
    else
      var last := requests[|requests| - 1];
      AllWrites(requests[..|requests| - 1]) + last.puts + last.deletes
  }

  lemma OneMoreRequest(requests: seq<Request>, r: Request)
    ensures AllWrites(requests + [r]) == AllWrites(requests) + r.puts + r.deletes
  {
    assert (requests + [r])[..|requests|] == requests;
  }

  // The client's loop variables, and what has been sent.
  datatype Progress = Progress(request: Request, currentSize: nat, sent: seq<Request>)

  const NO_PROGRESS := Progress(Request([], [], true), 0, [])

  ghost predicate SizesOk(p: Progress) {
    && p.request.continues
    && p.currentSize == TotalSize(p.request.puts) + TotalSize(p.request.deletes)
    && SmallEnough(p.request)
    && forall r | r in p.sent :: SmallEnough(r)
  }

  // What has been sent and what is about to be sent.
  ghost function Kept(p: Progress): seq<Write> {
    AllWrites(p.sent) + p.request.puts + p.request.deletes
  }

  // Of the writes gone through, the last ones to each key are kept, and their keys are remembered.
  ghost predicate Through(p: Progress, keySet: set<bytes>, ws: seq<Write>) {
    && SizesOk(p)
    && LastWrites(Kept(p), ws)
    && forall k :: k in keySet <==> LastWrite(ws, k).Some?
  }

  lemma Skipped(p: Progress, keySet: set<bytes>, w: Write, ws: seq<Write>)
    requires Through(p, keySet, ws) && w.key in keySet
    ensures Through(p, keySet, [w] + ws)
  {
    Overwritten(Kept(p), w, ws);
    forall k
      ensures k in keySet <==> LastWrite([w] + ws, k).Some?
    {
      FirstAdded(w, ws, k);
    }
  }

  // After sending the request an empty one is started.
  function Flushed(p: Progress): Progress {
    Progress(NO_PROGRESS.request, 0, p.sent + [p.request])
  }

  lemma FlushedKeeps(p: Progress, keySet: set<bytes>, ws: seq<Write>)
    requires Through(p, keySet, ws)
    ensures Through(Flushed(p), keySet, ws) && AllWrites(Flushed(p).sent) == Kept(p)
  {
    OneMoreRequest(p.sent, p.request);
    assert Kept(Flushed(p)) == Kept(p);
  }

  function Added(p: Progress, w: Write): Progress {
    p.(currentSize := p.currentSize + SizeOf(w),
       request := if w.Put? then p.request.(puts := p.request.puts + [w])
                  else p.request.(deletes := p.request.deletes + [w]))
  }

  lemma AddedSizes(p: Progress, w: Write)
    requires SizesOk(p) && (p.currentSize + SizeOf(w) <= MAX_BATCH_SIZE || p.request.puts == p.request.deletes == [])
    ensures SizesOk(Added(p, w))
  {
    assert (p.request.puts + [w])[..|p.request.puts|] == p.request.puts;
    assert (p.request.deletes + [w])[..|p.request.deletes|] == p.request.deletes;
  }

  lemma AddedPut(sent: seq<Write>, puts: seq<Write>, deletes: seq<Write>, w: Write, ws: seq<Write>)
    requires LastWrites(sent + puts + deletes, ws) && LastWrite(ws, w.key).None?
    ensures LastWrites(sent + (puts + [w]) + deletes, [w] + ws)
  {
    Survives(sent + puts, w, deletes, ws);
    assert sent + (puts + [w]) == sent + puts + [w];
  }

  lemma AddedDelete(sent: seq<Write>, deletes: seq<Write>, w: Write, ws: seq<Write>)
    requires LastWrites(sent + deletes, ws) && LastWrite(ws, w.key).None?
    ensures LastWrites(sent + (deletes + [w]), [w] + ws)
  {
    var all := sent + deletes;
    assert all + [] == all;
    Survives(all, w, [], ws);
    assert all + [w] + [] == all + [w];
    assert sent + (deletes + [w]) == all + [w];
  }

  lemma AddedWrite(p: Progress, w: Write, ws: seq<Write>)
    requires LastWrites(Kept(p), ws) && LastWrite(ws, w.key).None?
    ensures LastWrites(Kept(Added(p, w)), [w] + ws)
  {
    if w.Put? {
      AddedPut(AllWrites(p.sent), p.request.puts, p.request.deletes, w, ws);
    } else {
      AddedDelete(AllWrites(p.sent) + p.request.puts, p.request.deletes, w, ws);
    }
  }

  lemma AddedKeeps(p: Progress, keySet: set<bytes>, w: Write, ws: seq<Write>)
    requires Through(p, keySet, ws) && w.key !in keySet
    requires p.currentSize + SizeOf(w) <= MAX_BATCH_SIZE || p.request.puts == p.request.deletes == []
    ensures Through(Added(p, w), keySet + {w.key}, [w] + ws)
  {
    AddedSizes(p, w);
    AddedWrite(p, w, ws);
    forall k
      ensures k in keySet + {w.key} <==> LastWrite([w] + ws, k).Some?
    {
      FirstAdded(w, ws, k);
    }
  }

  lemma LastRequest(p: Progress, keySet: set<bytes>, ws: seq<Write>)
    requires Through(p, keySet, ws)
    ensures var sent := p.sent + [p.request.(continues := false)];
            AllWrites(sent) == Kept(p) && LastWrites(AllWrites(sent), ws) && forall r | r in sent :: SmallEnough(r)
  {
    OneMoreRequest(p.sent, p.request.(continues := false));
  }

  // After a successful Write the remote database is as if all writes had been replayed in order; after a
  // failed one it is that or unchanged. The requests carry the last write to each key once and nothing
  // else, in chunks that are small enough, and in any other order they would have had the same effect.
  method WriteBatch(server: Server, id: int, writes: seq<Write>) returns (ok: bool, sent: seq<Request>)
    requires id !in server.batches
    modifies server
    ensures forall r | r in sent :: SmallEnough(r)
    ensures ok ==> LastWrites(AllWrites(sent), writes) && server.db == ApplyWrites(old(server.db), writes)
    ensures ok ==> forall other | multiset(other) == multiset(AllWrites(sent)) ::
                     ApplyWrites(old(server.db), other) == server.db
    ensures !ok ==> server.flaky && (server.db == old(server.db) || server.db == ApplyWrites(old(server.db), writes))
  {
    var p := NO_PROGRESS;
    var keySet: set<bytes> := {};
    var i := |writes|;
    while i > 0
      invariant 0 <= i <= |writes| && server.db == old(server.db) && server.Collected(id) == AllWrites(p.sent)
      invariant Through(p, keySet, writes[i..])
    {
      i := i - 1;
      var w := writes[i];
      ghost var later := writes[i + 1..];
      assert writes[i..] == [w] + later;
      if w.key in keySet {
        Skipped(p, keySet, w, later);
      } else {
        if p.currentSize + SizeOf(w) > MAX_BATCH_SIZE {
          ok := Call(server, id, p.request);
          FlushedKeeps(p, keySet, later);
          p := Flushed(p);
          if !ok {
            return false, p.sent;
          }
        }
        AddedKeeps(p, keySet, w, later);
        p, keySet := Added(p, w), keySet + {w.key};
      }
    }
    assert writes[0..] == writes;
    LastRequest(p, keySet, writes);
    AnyOrder(server.db, Kept(p), writes);
    AnyReordering(server.db, Kept(p), writes);
    var last := p.request.(continues := false);
    ok := Call(server, id, last);
    sent := p.sent + [last];
  }
}
