/**
 The ref-counted locks of chains/atomic/memory.go under any interleaving.

 Each thread takes the locks of a list of shared IDs in order, keeps them while it works, and
 releases them in reverse order. A step is one critical section of the source: makeLock, the
 acquisition of the mutex it returned, releaseLock, and the release of the mutex that returned.
 Lock objects leave the map when their count reaches zero and are created again, possibly while
 the old object is still locked. 32-byte shared IDs, which SortIDs orders bytewise, are modelled
 by their big-endian value.
 */
module Locks {
  import opened Wrappers

  type SharedID = int
  type Ref = nat
  type Tid = nat

  datatype Pc =
    | MakeLock(i: nat)          // about to call makeLock on ids[i]
    | Lock(i: nat)              // about to lock the mutex makeLock returned for ids[i]
    | Work(i: nat)              // has locked ids[..i+1] and works on ids[i]
    | Commit                    // has locked every ID and finished its work
    | ReleaseLock(i: nat)       // about to call releaseLock on ids[i]
    | Unlock(i: nat, ref: Ref)  // about to unlock the mutex releaseLock returned for ids[i]
    | Finished

  // refs[i] is the mutex makeLock returned for ids[i] and releaseLock has not yet been called on.
  datatype Thread = Thread(ids: seq<SharedID>, pc: Pc, refs: seq<Ref>)

  // A ref-counted lock object; `id` is the entry it was created for.
  datatype RcLock = RcLock(id: SharedID, count: int, holder: Option<Tid>)

  datatype LockState = LockState(
    locks: map<SharedID, Ref>,
    heap: map<Ref, RcLock>,
    nextRef: Ref,
    threads: map<Tid, Thread>)

  datatype Move =
    | Start(tid: Tid, ids: seq<SharedID>)
    | Go(tid: Tid)     // the only lock step the thread can take at its program counter
    | Abort(tid: Tid)  // an operation failed: start releasing

  // Apply takes its locks in the order of the sorted shared IDs; Get and Indexed take one.
  ghost predicate Sorted(ids: seq<SharedID>) {
    forall i, j | 0 <= i < j < |ids| :: ids[i] < ids[j]
  }

  function Resume(ids: seq<SharedID>, i: nat): Pc {
    if i < |ids| then MakeLock(i) else Commit
  }

  function Unwind(i: nat): Pc {
    if i == 0 then Finished else ReleaseLock(i - 1)
  }

  ghost predicate ThreadOk(t: Thread) {
    && Sorted(t.ids)
    && match t.pc
       case MakeLock(i) => i < |t.ids| && |t.refs| == i
       case Lock(i) => i < |t.ids| && |t.refs| == i + 1
       case Work(i) => i < |t.ids| && |t.refs| == i + 1
       case Commit => |t.refs| == |t.ids|
       case ReleaseLock(i) => i < |t.ids| && |t.refs| == i + 1
       case Unlock(i, _) => i < |t.ids| && |t.refs| == i
       case Finished => t.refs == []
  }

  // makeLock: find or create the entry and raise its count.
  function DoMakeLock(s: LockState, tid: Tid, t: Thread, i: nat): LockState
    requires i < |t.ids| && (t.ids[i] in s.locks ==> s.locks[t.ids[i]] in s.heap)
  {
    var id := t.ids[i];
    var created := id !in s.locks;
    var ref := if created then s.nextRef else s.locks[id];
    var rc := if created then RcLock(id, 0, None) else s.heap[ref];
    LockState(
      s.locks[id := ref],
      s.heap[ref := rc.(count := rc.count + 1)],
      if created then s.nextRef + 1 else s.nextRef,
      s.threads[tid := t.(pc := Lock(i), refs := t.refs + [ref])])
  }

  function DoLock(s: LockState, tid: Tid, t: Thread, i: nat): LockState
    requires i < |t.refs| && t.refs[i] in s.heap
  {
    s.(heap := s.heap[t.refs[i] := s.heap[t.refs[i]].(holder := Some(tid))],
       threads := s.threads[tid := t.(pc := Work(i))])
  }

  // releaseLock: lower the count and drop the entry when it reaches zero.
  function DoReleaseLock(s: LockState, tid: Tid, t: Thread, i: nat): LockState
    requires i < |t.ids| && |t.refs| == i + 1 && t.ids[i] in s.locks && s.locks[t.ids[i]] in s.heap
  {
    var id := t.ids[i];
    var ref := s.locks[id];
    var rc := s.heap[ref].(count := s.heap[ref].count - 1);
    s.(heap := s.heap[ref := rc],
       locks := if rc.count == 0 then s.locks - {id} else s.locks,
       threads := s.threads[tid := t.(pc := Unlock(i, ref), refs := t.refs[..i])])
  }

  function DoUnlock(s: LockState, tid: Tid, t: Thread, i: nat, ref: Ref): LockState
    requires ref in s.heap
  {
    s.(heap := s.heap[ref := s.heap[ref].(holder := None)],
       threads := s.threads[tid := t.(pc := Unwind(i))])
  }

  // A move the source can make. The one blocking move is locking a mutex another thread holds;
  // a releaseLock whose entry is missing would panic.
  ghost predicate Enabled(s: LockState, m: Move) {
    match m
    case Start(tid, ids) => tid !in s.threads && Sorted(ids)
    case Abort(tid) => tid in s.threads && s.threads[tid].pc.Work?
    case Go(tid) =>
      && tid in s.threads
      && var t := s.threads[tid];
      && ThreadOk(t)
      && match t.pc
         case MakeLock(i) => t.ids[i] in s.locks ==> s.locks[t.ids[i]] in s.heap
         case Lock(i) => t.refs[i] in s.heap && s.heap[t.refs[i]].holder == None
         case ReleaseLock(i) => t.ids[i] in s.locks && s.locks[t.ids[i]] in s.heap
         case Unlock(_, ref) => ref in s.heap
         case Finished => false
         case _ => true
  }

  ghost function Next(s: LockState, m: Move): LockState
    requires Enabled(s, m)
  {
    match m
    case Start(tid, ids) => s.(threads := s.threads[tid := Thread(ids, Resume(ids, 0), [])])
    case Abort(tid) => s.(threads := s.threads[tid := s.threads[tid].(pc := ReleaseLock(s.threads[tid].pc.i))])
    case Go(tid) =>
      var t := s.threads[tid];
      match t.pc
      case MakeLock(i) => DoMakeLock(s, tid, t, i)
      case Lock(i) => DoLock(s, tid, t, i)
      case Work(i) => s.(threads := s.threads[tid := t.(pc := Resume(t.ids, i + 1))])
      case Commit => s.(threads := s.threads[tid := t.(pc := Unwind(|t.ids|))])
      case ReleaseLock(i) => DoReleaseLock(s, tid, t, i)
      case Unlock(i, ref) => DoUnlock(s, tid, t, i, ref)
  }

  // ---------- The invariant ----------

  // The thread is between makeLock and releaseLock on `id`.
  ghost predicate Uses(t: Thread, id: SharedID) {
    exists i | 0 <= i < |t.refs| && i < |t.ids| :: t.ids[i] == id
  }

  ghost function Users(s: LockState, id: SharedID): set<Tid> {
    set tid | tid in s.threads && Uses(s.threads[tid], id)
  }

  function HeldCount(t: Thread): int {
    if t.pc.Lock? then |t.refs| - 1 else |t.refs|
  }

  // The thread has locked the mutex `ref` and not yet unlocked it.
  ghost predicate Holds(t: Thread, ref: Ref) {
    (exists i | 0 <= i < HeldCount(t) :: t.refs[i] == ref) || (t.pc.Unlock? && t.pc.ref == ref)
  }

  // The thread is between acquiring the lock of `id` and calling releaseLock on it.
  ghost predicate InRegion(t: Thread, id: SharedID) {
    exists i | 0 <= i < HeldCount(t) && i < |t.ids| :: t.ids[i] == id
  }

  ghost predicate ThreadsOk(s: LockState) {
    forall tid | tid in s.threads :: ThreadOk(s.threads[tid])
  }

  ghost predicate EntriesOk(s: LockState) {
    && (forall ref | ref in s.heap :: ref < s.nextRef)
    && (forall id {:trigger s.locks[id]} | id in s.locks :: s.locks[id] in s.heap && s.heap[s.locks[id]].id == id)
  }

  // A thread between makeLock and releaseLock has the object that is in the map now.
  ghost predicate RefsOk(s: LockState) {
    forall tid | tid in s.threads :: OwnRefsOk(s.locks, s.threads[tid])
  }

  ghost predicate OwnRefsOk(locks: map<SharedID, Ref>, t: Thread) {
    forall i | 0 <= i < |t.refs| && i < |t.ids| :: t.ids[i] in locks && locks[t.ids[i]] == t.refs[i]
  }

  ghost predicate UnlocksOk(s: LockState) {
    forall tid | tid in s.threads :: UnlockOk(s.heap, s.threads[tid])
  }

  ghost predicate UnlockOk(heap: map<Ref, RcLock>, t: Thread) {
    t.pc.Unlock? && t.pc.i < |t.ids| ==> t.pc.ref in heap && heap[t.pc.ref].id == t.ids[t.pc.i]
  }

  // The count of an entry is the number of threads between makeLock and releaseLock on it.
  ghost predicate CountsOk(s: LockState) {
    forall id {:trigger s.locks[id]} | id in s.locks && s.locks[id] in s.heap ::
        s.heap[s.locks[id]].count == |Users(s, id)| && Users(s, id) != {}
  }

  ghost predicate HoldersOk(s: LockState) {
    && (forall tid, ref {:trigger Holds(s.threads[tid], ref)} | tid in s.threads && Holds(s.threads[tid], ref) ::
          ref in s.heap && s.heap[ref].holder == Some(tid))
    && (forall ref {:trigger s.heap[ref]} | ref in s.heap && s.heap[ref].holder.Some? ::
          s.heap[ref].holder.value in s.threads && Holds(s.threads[s.heap[ref].holder.value], ref))
  }

  ghost predicate LockInv(s: LockState) {
    ThreadsOk(s) && EntriesOk(s) && RefsOk(s) && UnlocksOk(s) && CountsOk(s) && HoldersOk(s)
  }

  // ---------- Every step keeps it ----------

  // Every step replaces one thread.
  lemma StepFrame(s: LockState, m: Move)
    requires Enabled(s, m)
    ensures m.tid in Next(s, m).threads
    ensures Next(s, m).threads == s.threads[m.tid := Next(s, m).threads[m.tid]]
    ensures m.Start? <==> m.tid !in s.threads
  {
  }

  lemma ThreadsKept(s: LockState, m: Move)
    requires ThreadsOk(s) && Enabled(s, m)
    ensures ThreadsOk(Next(s, m))
  {
    StepFrame(s, m);
  }

  lemma EntriesKept(s: LockState, m: Move)
    requires EntriesOk(s) && Enabled(s, m)
    ensures EntriesOk(Next(s, m))
  {
  }

  lemma UnlocksKept(s: LockState, m: Move)
    requires UnlocksOk(s) && EntriesOk(s) && ThreadsOk(s) && Enabled(s, m)
    ensures UnlocksOk(Next(s, m))
  {
    StepFrame(s, m);
  }

  lemma SubsetSize(a: set<Tid>, b: set<Tid>)
    requires a <= b
    ensures |a| <= |b|
  {
    assert b == a + (b - a);
  }

  // While another thread uses an entry, releaseLock does not drop it.
  lemma OthersKeepEntry(s: LockState, releaser: Tid, other: Tid, id: SharedID)
    requires EntriesOk(s) && CountsOk(s) && id in s.locks
    requires releaser in s.threads && other in s.threads && releaser != other
    requires Uses(s.threads[releaser], id) && Uses(s.threads[other], id)
    ensures s.heap[s.locks[id]].count >= 2
  {
    SubsetSize({releaser, other}, Users(s, id));
  }

  lemma OwnRefsKept(s: LockState, m: Move)
    requires ThreadsOk(s) && EntriesOk(s) && RefsOk(s) && Enabled(s, m)
    ensures m.tid in Next(s, m).threads && OwnRefsOk(Next(s, m).locks, Next(s, m).threads[m.tid])
  {
    if !m.Start? {
      assert OwnRefsOk(s.locks, s.threads[m.tid]);
    }
  }

  // Only releaseLock drops an entry, and not one that another thread uses.
  lemma OthersRefsKept(s: LockState, m: Move, tid: Tid)
    requires EntriesOk(s) && RefsOk(s) && CountsOk(s) && Enabled(s, m) && tid in s.threads && tid != m.tid
    ensures OwnRefsOk(Next(s, m).locks, s.threads[tid])
  {
    var t := s.threads[tid];
    assert OwnRefsOk(s.locks, t);
    if m.Go? && s.threads[m.tid].pc.ReleaseLock? {
      var id := s.threads[m.tid].ids[s.threads[m.tid].pc.i];
      if Uses(t, id) {
        assert Uses(s.threads[m.tid], id);
        OthersKeepEntry(s, m.tid, tid, id);
      }
    }
  }

  lemma RefsKept(s: LockState, m: Move)
    requires ThreadsOk(s) && EntriesOk(s) && RefsOk(s) && CountsOk(s) && Enabled(s, m)
    ensures RefsOk(Next(s, m))
  {
    var s' := Next(s, m);
    StepFrame(s, m);
    OwnRefsKept(s, m);
    forall tid | tid in s'.threads && tid != m.tid
      ensures OwnRefsOk(s'.locks, s'.threads[tid])
    {
      OthersRefsKept(s, m, tid);
    }
  }

  lemma UsersAfter(s: LockState, s': LockState, tid: Tid, id: SharedID)
    requires tid in s'.threads && s'.threads == s.threads[tid := s'.threads[tid]]
    ensures Users(s', id) == (Users(s, id) - {tid}) + (if Uses(s'.threads[tid], id) then {tid} else {})
  {
  }

  lemma CountsKept(s: LockState, m: Move)
    requires ThreadsOk(s) && EntriesOk(s) && RefsOk(s) && CountsOk(s) && Enabled(s, m)
    ensures CountsOk(Next(s, m))
  {
    var s' := Next(s, m);
    StepFrame(s, m);
    forall id | id in s'.locks && s'.locks[id] in s'.heap
      ensures s'.heap[s'.locks[id]].count == |Users(s', id)| && Users(s', id) != {}
    {
      if m.Go? && s.threads[m.tid].pc.MakeLock? {
        CountAfterMakeLock(s, m.tid, s.threads[m.tid], s.threads[m.tid].pc.i, id);
      } else if m.Go? && s.threads[m.tid].pc.ReleaseLock? {
        CountAfterReleaseLock(s, m.tid, s.threads[m.tid], s.threads[m.tid].pc.i, id);
      } else {
        UsersSame(s, m, id);
      }
    }
  }

  // The other steps change neither the threads' references nor the counts.
  lemma UsersSame(s: LockState, m: Move, id: SharedID)
    requires Enabled(s, m)
    requires m.Go? ==> !s.threads[m.tid].pc.MakeLock? && !s.threads[m.tid].pc.ReleaseLock?
    ensures var s' := Next(s, m); s'.locks == s.locks && Users(s', id) == Users(s, id)
    ensures var s' := Next(s, m);
            forall ref | ref in s.heap :: ref in s'.heap && s'.heap[ref].count == s.heap[ref].count
  {
    var s' := Next(s, m);
    StepFrame(s, m);
    UsersAfter(s, s', m.tid, id);
    if m.tid in s.threads {
      var t, t' := s.threads[m.tid], s'.threads[m.tid];
      assert t'.refs == t.refs && t'.ids == t.ids;
      assert Uses(t', id) == Uses(t, id);
    }
  }

  lemma UsesAppended(t: Thread, ref: Ref, pc: Pc, id: SharedID)
    requires Sorted(t.ids) && |t.refs| < |t.ids|
    ensures Uses(t.(pc := pc, refs := t.refs + [ref]), id) <==> Uses(t, id) || id == t.ids[|t.refs|]
    ensures !Uses(t, t.ids[|t.refs|])
  {
    var t' := t.(pc := pc, refs := t.refs + [ref]);
    assert t'.ids[|t.refs|] == t.ids[|t.refs|];
    if Uses(t, id) {
      var k :| 0 <= k < |t.refs| && k < |t.ids| && t.ids[k] == id;
      assert k < |t'.refs| && t'.ids[k] == id;
    }
  }

  lemma NoUserNoEntry(s: LockState, id: SharedID)
    requires RefsOk(s) && id !in s.locks
    ensures Users(s, id) == {}
  {
    forall tid | tid in s.threads
      ensures !Uses(s.threads[tid], id)
    {
      assert OwnRefsOk(s.locks, s.threads[tid]);
    }
  }

  lemma UsersAfterMakeLock(s: LockState, s': LockState, tid: Tid, t: Thread, i: nat, ref: Ref, id: SharedID)
    requires tid in s.threads && s.threads[tid] == t && ThreadOk(t) && t.pc == MakeLock(i)
    requires s'.threads == s.threads[tid := t.(pc := Lock(i), refs := t.refs + [ref])]
    ensures Users(s', id) == Users(s, id) + (if id == t.ids[i] then {tid} else {})
    ensures tid !in Users(s, t.ids[i])
  {
    UsersAfter(s, s', tid, id);
    UsesAppended(t, ref, Lock(i), id);
  }

  lemma CountAfterMakeLock(s: LockState, tid: Tid, t: Thread, i: nat, id: SharedID)
    requires EntriesOk(s) && RefsOk(s) && CountsOk(s)
    requires tid in s.threads && s.threads[tid] == t && t.pc == MakeLock(i) && ThreadOk(t)
    requires Enabled(s, Go(tid)) && id in DoMakeLock(s, tid, t, i).locks
    ensures var s' := DoMakeLock(s, tid, t, i);
            s'.locks[id] in s'.heap && s'.heap[s'.locks[id]].count == |Users(s', id)| && Users(s', id) != {}
  {
    var s' := DoMakeLock(s, tid, t, i);
    UsersAfterMakeLock(s, s', tid, t, i, s'.locks[t.ids[i]], id);
    if id != t.ids[i] {
      OtherEntryKept(s, tid, t, i, id);
    } else if id !in s.locks {
      NoUserNoEntry(s, id);
    } else {
      assert s.heap[s.locks[id]].count == |Users(s, id)|;
    }
  }

  lemma OtherEntryKept(s: LockState, tid: Tid, t: Thread, i: nat, id: SharedID)
    requires EntriesOk(s) && CountsOk(s) && i < |t.ids| && id in s.locks && id != t.ids[i]
    ensures var s' := DoMakeLock(s, tid, t, i);
            && s'.locks[id] == s.locks[id] && s.locks[id] in s.heap && s.locks[id] in s'.heap
            && s'.heap[s.locks[id]] == s.heap[s.locks[id]] && s.heap[s.locks[id]].count == |Users(s, id)|
            && Users(s, id) != {}
  {
  }

  lemma CountAfterReleaseLock(s: LockState, tid: Tid, t: Thread, i: nat, id: SharedID)
    requires EntriesOk(s) && CountsOk(s)
    requires tid in s.threads && s.threads[tid] == t && t.pc == ReleaseLock(i) && ThreadOk(t)
    requires Enabled(s, Go(tid)) && id in DoReleaseLock(s, tid, t, i).locks
    ensures var s' := DoReleaseLock(s, tid, t, i);
            s'.locks[id] in s'.heap && s'.heap[s'.locks[id]].count == |Users(s', id)| && Users(s', id) != {}
  {
    var s' := DoReleaseLock(s, tid, t, i);
    UsersAfterReleaseLock(s, s', tid, t, i, id);
    assert id in s.locks && s.locks[id] in s.heap && s.heap[s.locks[id]].count == |Users(s, id)|;
  }

  lemma UsersAfterReleaseLock(s: LockState, s': LockState, tid: Tid, t: Thread, i: nat, id: SharedID)
    requires tid in s.threads && s.threads[tid] == t && ThreadOk(t) && t.pc == ReleaseLock(i)
    requires tid in s'.threads && s'.threads == s.threads[tid := s'.threads[tid]]
    requires s'.threads[tid].ids == t.ids && s'.threads[tid].refs == t.refs[..i]
    ensures Users(s', id) == Users(s, id) - (if id == t.ids[i] then {tid} else {})
    ensures tid in Users(s, t.ids[i])
  {
    UsersAfter(s, s', tid, id);
    assert t.refs == t.refs[..i] + [t.refs[i]];
    UsesAppended(s'.threads[tid], t.refs[i], t.pc, id);
    UsesAppended(s'.threads[tid], t.refs[i], t.pc, t.ids[i]);
  }

  // How a step changes what its own thread holds.
  lemma OwnHolds(s: LockState, m: Move, ref: Ref)
    requires EntriesOk(s) && RefsOk(s) && UnlocksOk(s) && ThreadsOk(s) && Enabled(s, m) && m.Go?
    ensures m.tid in Next(s, m).threads
    ensures var t := s.threads[m.tid]; var t' := Next(s, m).threads[m.tid];
            match t.pc
            case Lock(i) => Holds(t', ref) <==> Holds(t, ref) || ref == t.refs[i]
            case Unlock(i, r) => Holds(t', ref) <==> Holds(t, ref) && ref != r
            case _ => Holds(t', ref) <==> Holds(t, ref)
  {
    var t := s.threads[m.tid];
    var t' := Next(s, m).threads[m.tid];
    assert OwnRefsOk(s.locks, t) && UnlockOk(s.heap, t);
    match t.pc {
      case Lock(i) =>
        assert t'.refs[i] == t.refs[i];
      case Unlock(i, r) =>
        assert forall k | 0 <= k < |t.refs| :: t.refs[k] != r;
      case MakeLock(i) =>
        assert forall k | 0 <= k < i :: t'.refs[k] == t.refs[k];
      case ReleaseLock(i) =>
        assert forall k | 0 <= k < i :: t'.refs[k] == t.refs[k];
        assert t'.pc.ref == t.refs[i];
        if Holds(t, ref) && ref != t.refs[i] {
          var k :| 0 <= k < HeldCount(t) && t.refs[k] == ref;
          assert t'.refs[k] == ref;
        }
      case _ =>
    }
  }

  // How a step changes who holds a mutex.
  lemma HolderAfter(s: LockState, m: Move, ref: Ref)
    requires EntriesOk(s) && Enabled(s, m)
    ensures ref in s.heap ==> ref in Next(s, m).heap
    ensures ref in Next(s, m).heap ==>
              Next(s, m).heap[ref].holder ==
              if m.Go? && s.threads[m.tid].pc.Lock? && ref == s.threads[m.tid].refs[s.threads[m.tid].pc.i] then
                  Some(m.tid)
              else if m.Go? && s.threads[m.tid].pc.Unlock? && ref == s.threads[m.tid].pc.ref then None
              else if ref in s.heap then s.heap[ref].holder else None
  {
  }

  lemma IdleHolds(s: LockState, m: Move, ref: Ref)
    requires Enabled(s, m) && !m.Go?
    ensures m.tid in Next(s, m).threads
    ensures Holds(Next(s, m).threads[m.tid], ref) <==> m.tid in s.threads && Holds(s.threads[m.tid], ref)
  {
  }

  // A mutex held after the step has its holder recorded...
  lemma HeldKept(s: LockState, m: Move, tid: Tid, ref: Ref)
    requires EntriesOk(s) && RefsOk(s) && UnlocksOk(s) && ThreadsOk(s) && HoldersOk(s) && Enabled(s, m)
    requires tid in Next(s, m).threads && Holds(Next(s, m).threads[tid], ref)
    ensures ref in Next(s, m).heap && Next(s, m).heap[ref].holder == Some(tid)
  {
    StepFrame(s, m);
    HolderAfter(s, m, ref);
    if m.Go? {
      OwnHolds(s, m, ref);
      var t := s.threads[m.tid];
      assert t.pc.Unlock? ==> Holds(t, t.pc.ref);
    } else {
      IdleHolds(s, m, ref);
    }
    assert tid != m.tid ==> Holds(s.threads[tid], ref);
  }

  // ... and a recorded holder holds it.
  lemma HolderKept(s: LockState, m: Move, ref: Ref)
    requires EntriesOk(s) && RefsOk(s) && UnlocksOk(s) && ThreadsOk(s) && HoldersOk(s) && Enabled(s, m)
    requires ref in Next(s, m).heap && Next(s, m).heap[ref].holder.Some?
    ensures var holder := Next(s, m).heap[ref].holder.value;
            holder in Next(s, m).threads && Holds(Next(s, m).threads[holder], ref)
  {
    StepFrame(s, m);
    HolderAfter(s, m, ref);
    if m.Go? {
      OwnHolds(s, m, ref);
    } else {
      IdleHolds(s, m, ref);
    }
  }

  lemma HoldersKept(s: LockState, m: Move)
    requires EntriesOk(s) && RefsOk(s) && UnlocksOk(s) && ThreadsOk(s) && HoldersOk(s) && Enabled(s, m)
    ensures HoldersOk(Next(s, m))
  {
    var s' := Next(s, m);
    forall tid, ref | tid in s'.threads && Holds(s'.threads[tid], ref)
      ensures ref in s'.heap && s'.heap[ref].holder == Some(tid)
    {
      HeldKept(s, m, tid, ref);
    }
    forall ref | ref in s'.heap && s'.heap[ref].holder.Some?
      ensures s'.heap[ref].holder.value in s'.threads && Holds(s'.threads[s'.heap[ref].holder.value], ref)
    {
      HolderKept(s, m, ref);
    }
  }

  lemma LockInvKept(s: LockState, m: Move)
    requires LockInv(s) && Enabled(s, m)
    ensures LockInv(Next(s, m))
  {
    ThreadsKept(s, m);
    EntriesKept(s, m);
    RefsKept(s, m);
    UnlocksKept(s, m);
    CountsKept(s, m);
    HoldersKept(s, m);
  }

  // ---------- What it gives ----------

  // At most one thread is between acquiring the lock of a shared ID and calling releaseLock on it.
  lemma MutualExclusion(s: LockState, t1: Tid, t2: Tid, id: SharedID)
    requires RefsOk(s) && HoldersOk(s) && t1 in s.threads && t2 in s.threads
    requires InRegion(s.threads[t1], id) && InRegion(s.threads[t2], id)
    ensures t1 == t2
  {
    var a, b := s.threads[t1], s.threads[t2];
    assert OwnRefsOk(s.locks, a) && OwnRefsOk(s.locks, b);
    var i :| 0 <= i < HeldCount(a) && i < |a.ids| && a.ids[i] == id;
    var j :| 0 <= j < HeldCount(b) && j < |b.ids| && b.ids[j] == id;
    assert a.refs[i] == b.refs[j];
    assert Holds(a, a.refs[i]) && Holds(b, b.refs[j]);
  }

  // Only a locked mutex makes a thread wait; in particular releaseLock never meets a missing entry.
  lemma OnlyLockBlocks(s: LockState, tid: Tid)
    requires LockInv(s) && tid in s.threads && s.threads[tid].pc != Finished
    ensures var t := s.threads[tid]; t.pc.Lock? ==> t.pc.i < |t.refs| && t.refs[t.pc.i] in s.heap
    ensures var t := s.threads[tid]; Enabled(s, Go(tid)) <==> (t.pc.Lock? ==> s.heap[t.refs[t.pc.i]].holder == None)
  {
    var t := s.threads[tid];
    assert ThreadOk(t) && OwnRefsOk(s.locks, t) && UnlockOk(s.heap, t);
    if t.pc.MakeLock? || t.pc.Lock? || t.pc.ReleaseLock? {
      var id := t.ids[t.pc.i];
      assert id in s.locks ==> s.locks[id] in s.heap;
    }
  }

  // A thread that waits for a lock waits for one whose holder, if it waits too, waits for a larger ID.
  lemma HolderWantsMore(s: LockState, tid: Tid) returns (holder: Tid)
    requires LockInv(s) && tid in s.threads && s.threads[tid].pc.Lock? && !Enabled(s, Go(tid))
    ensures holder in s.threads && s.threads[holder].pc != Finished
    ensures s.threads[holder].pc.Lock? ==>
              s.threads[holder].ids[s.threads[holder].pc.i] > s.threads[tid].ids[s.threads[tid].pc.i]
  {
    OnlyLockBlocks(s, tid);
    var t := s.threads[tid];
    assert ThreadOk(t) && OwnRefsOk(s.locks, t);
    var ref := t.refs[t.pc.i];
    assert s.locks[t.ids[t.pc.i]] == ref;
    holder := s.heap[ref].holder.value;
    var h := s.threads[holder];
    assert ThreadOk(h) && OwnRefsOk(s.locks, h) && Holds(h, ref);
    if h.pc.Lock? {
      var k :| 0 <= k < HeldCount(h) && h.refs[k] == ref;
      assert s.locks[h.ids[k]] == ref;
      assert s.heap[ref].id == h.ids[k] == t.ids[t.pc.i];
    }
  }

  lemma MaxOf(xs: set<int>) returns (max: int)
    requires xs != {}
    ensures max in xs && forall x | x in xs :: x <= max
  {
    assert (forall x :: x !in xs) ==> xs == {};
    max :| max in xs;
    var rest := xs - {max};
    assert xs == rest + {max};
    if rest != {} {
      var other := MaxOf(rest);
      if other > max { max := other; }
    }
  }

  // As long as a thread is unfinished, some thread can move: the locks cannot deadlock.
  lemma NoDeadlock(s: LockState, tid: Tid)
    requires LockInv(s) && tid in s.threads && s.threads[tid].pc != Finished
    ensures exists mover | mover in s.threads :: Enabled(s, Go(mover))
  {
    if !exists mover | mover in s.threads :: Enabled(s, Go(mover)) {
      forall t | t in s.threads && s.threads[t].pc != Finished
        ensures s.threads[t].pc.Lock? && ThreadOk(s.threads[t])
      {
        OnlyLockBlocks(s, t);
      }
      var wanted := set t | t in s.threads && s.threads[t].pc != Finished :: s.threads[t].ids[s.threads[t].pc.i];
      assert s.threads[tid].ids[s.threads[tid].pc.i] in wanted;
      var max := MaxOf(wanted);
      var last :| last in s.threads && s.threads[last].pc != Finished &&
          s.threads[last].ids[s.threads[last].pc.i] == max;
      var holder := HolderWantsMore(s, last);
      assert s.threads[holder].ids[s.threads[holder].pc.i] in wanted;
    }
  }
}
