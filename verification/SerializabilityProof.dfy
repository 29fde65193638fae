/**
 Every interleaving of concurrent calls leaves the store, and gives the replies, that running the
 calls one at a time in the order of their commits gives.
 */
module SerializabilityProof {
  import opened Wrappers
  import opened Locks
  import opened Serializability

  // ---------- Sequential runs ----------

  lemma PatchTwice<K, V>(base: map<K, V>, first: map<K, Option<V>>, second: map<K, Option<V>>)
    ensures Patch(Patch(base, first), second) == Patch(base, first + second)
  {
  }

  // The first k operations of a part, run on its space, give its space patched by `overlay`.
  ghost predicate RanSoFar<K, V, O, R>(run: Semantics<K, V, O, R>, spaces: map<SharedID, map<K, V>>,
                                       part: Part<O>, k: nat, overlay: map<K, Option<V>>, replies: seq<R>)
    requires k <= |part.ops|
  {
    RunOps(run, SpaceOf(spaces, part.id), part.ops[..k]) == Ran(Patch(SpaceOf(spaces, part.id), overlay), replies)
  }

  lemma OneMoreOp<K, V, O, R>(run: Semantics<K, V, O, R>, spaces: map<SharedID, map<K, V>>,
                              part: Part<O>, k: nat, overlay: map<K, Option<V>>, replies: seq<R>)
    requires k < |part.ops| && RanSoFar(run, spaces, part, k, overlay, replies)
    ensures match run(Patch(SpaceOf(spaces, part.id), overlay), part.ops[k])
            case Refused => RunOps(run, SpaceOf(spaces, part.id), part.ops[..k + 1]) == Stuck
            case Accepted(writes, reply) => RanSoFar(run, spaces, part, k + 1, overlay + writes, replies + [reply])
  {
    assert part.ops[..k + 1][..k] == part.ops[..k];
    match run(Patch(SpaceOf(spaces, part.id), overlay), part.ops[k]) {
      case Refused =>
      case Accepted(writes, reply) => PatchTwice(SpaceOf(spaces, part.id), overlay, writes);
    }
  }

  lemma {:induction false} StuckStays<K, V, O, R>(run: Semantics<K, V, O, R>, space: map<K, V>, ops: seq<O>, k: nat)
    requires k <= |ops| && RunOps(run, space, ops[..k]) == Stuck
    ensures RunOps(run, space, ops) == Stuck
  {
    if k == |ops| {
      assert ops[..k] == ops;
    } else {
      assert ops[..|ops| - 1][..k] == ops[..k];
      StuckStays(run, space, ops[..|ops| - 1], k);
    }
  }

  lemma {:induction false} AllStuckStays<K, V, O, R>(run: Semantics<K, V, O, R>, spaces: map<SharedID, map<K, V>>,
                                                     parts: seq<Part<O>>, k: nat)
    requires k <= |parts| && RunParts(run, spaces, parts[..k]) == StuckAll
    ensures RunParts(run, spaces, parts) == StuckAll
  {
    if k == |parts| {
      assert parts[..k] == parts;
    } else {
      assert parts[..|parts| - 1][..k] == parts[..k];
      AllStuckStays(run, spaces, parts[..|parts| - 1], k);
    }
  }

  // A commit leaves the spaces of other shared IDs alone.
  lemma {:induction false} CommitFrame<K, V, O>(spaces: map<SharedID, map<K, V>>, parts: seq<Part<O>>,
                                                overlay: seq<map<K, Option<V>>>, id: SharedID)
    requires |overlay| == |parts|
    requires forall i | 0 <= i < |parts| :: parts[i].id != id
    ensures SpaceOf(CommitSpaces(spaces, parts, overlay), id) == SpaceOf(spaces, id)
  {
    if parts != [] {
      CommitFrame(spaces, parts[..|parts| - 1], overlay[..|parts| - 1], id);
    }
  }

  ghost predicate AllRan<K, V, O, R>(run: Semantics<K, V, O, R>, spaces: map<SharedID, map<K, V>>,
                                     parts: seq<Part<O>>, overlay: seq<map<K, Option<V>>>, replies: seq<seq<R>>)
  {
    && |parts| == |overlay| == |replies|
    && forall p | 0 <= p < |parts| :: RanSoFar(run, spaces, parts[p], |parts[p].ops|, overlay[p], replies[p])
  }

  // Parts before the i-th are sorted and have other shared IDs.
  lemma PartsApart<O>(parts: seq<Part<O>>, i: nat)
    requires i < |parts| && Sorted(Ids(parts))
    ensures Sorted(Ids(parts[..i])) && forall p | 0 <= p < i :: parts[..i][p].id != parts[i].id
  {
    assert Ids(parts[..i]) == Ids(parts)[..i];
    forall p | 0 <= p < i
      ensures parts[..i][p].id != parts[i].id
    {
      assert Ids(parts)[p] < Ids(parts)[i];
    }
  }

  lemma LastPartRan<K, V, O, R>(run: Semantics<K, V, O, R>, spaces: map<SharedID, map<K, V>>,
                                parts: seq<Part<O>>, overlay: seq<map<K, Option<V>>>, replies: seq<seq<R>>, n: nat)
    requires |parts| == |overlay| == |replies| == n + 1
    requires RunParts(run, spaces, parts[..n]) == RanAll(CommitSpaces(spaces, parts[..n], overlay[..n]), replies[..n])
    requires forall p | 0 <= p < n :: parts[..n][p].id != parts[n].id
    requires RanSoFar(run, spaces, parts[n], |parts[n].ops|, overlay[n], replies[n])
    ensures RunParts(run, spaces, parts) == RanAll(CommitSpaces(spaces, parts, overlay), replies)
  {
    CommitFrame(spaces, parts[..n], overlay[..n], parts[n].id);
    assert parts[n].ops[..|parts[n].ops|] == parts[n].ops;
    assert replies == replies[..n] + [replies[n]];
  }

  // Parts that each ran on the base, under distinct shared IDs, ran one after the other.
  lemma {:induction false} PartsRun<K, V, O, R>(run: Semantics<K, V, O, R>, spaces: map<SharedID, map<K, V>>,
                                               parts: seq<Part<O>>, overlay: seq<map<K, Option<V>>>,
                                                   replies: seq<seq<R>>)
    requires Sorted(Ids(parts)) && AllRan(run, spaces, parts, overlay, replies)
    ensures RunParts(run, spaces, parts) == RanAll(CommitSpaces(spaces, parts, overlay), replies)
  {
    if parts != [] {
      var n := |parts| - 1;
      PartsApart(parts, n);
      PartsRun(run, spaces, parts[..n], overlay[..n], replies[..n]);
      assert RanSoFar(run, spaces, parts[n], |parts[n].ops|, overlay[n], replies[n]);
      LastPartRan(run, spaces, parts, overlay, replies, n);
    }
  }

  // If the parts before i ran and part i gets stuck, the call is rejected.
  lemma PartsStuck<K, V, O, R>(run: Semantics<K, V, O, R>, spaces: map<SharedID, map<K, V>>,
                               parts: seq<Part<O>>, i: nat, overlay: seq<map<K, Option<V>>>, replies: seq<seq<R>>,
                                   k: nat)
    requires i < |parts| && Sorted(Ids(parts)) && AllRan(run, spaces, parts[..i], overlay, replies)
    requires k <= |parts[i].ops| && RunOps(run, SpaceOf(spaces, parts[i].id), parts[i].ops[..k]) == Stuck
    ensures RunParts(run, spaces, parts) == StuckAll
  {
    PartsApart(parts, i);
    PartsRun(run, spaces, parts[..i], overlay, replies);
    CommitFrame(spaces, parts[..i], overlay, parts[i].id);
    StuckStays(run, SpaceOf(spaces, parts[i].id), parts[i].ops, k);
    assert parts[..i + 1][..i] == parts[..i];
    AllStuckStays(run, spaces, parts, i + 1);
  }

  // ---------- The invariant ----------

  function DoneOps<K, V, O, R>(pc: Pc, job: Job<K, V, O, R>, p: nat): nat
    requires p < |job.call.parts|
  {
    if pc == Work(p) then job.done else |job.call.parts[p].ops|
  }

  // An undecided call's overlay is what its operations so far do to the base as it is now.
  ghost predicate JobOk<K, V, O, R>(run: Semantics<K, V, O, R>, spaces: map<SharedID, map<K, V>>, pc: Pc,
                                    job: Job<K, V, O, R>) {
    job.reply == None ==>
      && |job.overlay| == |job.replies| <= |job.call.parts|
      && forall p | 0 <= p < |job.overlay| ::
           && DoneOps(pc, job, p) <= |job.call.parts[p].ops|
           && RanSoFar(run, spaces, job.call.parts[p], DoneOps(pc, job, p), job.overlay[p], job.replies[p])
  }

  ghost predicate JobsOk<K, V, O, R>(run: Semantics<K, V, O, R>, s: System<K, V, O, R>) {
    && s.jobs.Keys == s.lk.threads.Keys
    && forall tid | tid in s.jobs :: JobFine(run, s, tid)
  }

  ghost predicate JobFine<K, V, O, R>(run: Semantics<K, V, O, R>, s: System<K, V, O, R>, tid: Tid) {
    Shaped(s, tid) && JobOk(run, s.store.spaces, s.lk.threads[tid].pc, s.jobs[tid])
  }

  // The recorded history explains the store and every reply given so far, one event per decided call.
  ghost predicate HistoryOk<K, V, O, R>(run: Semantics<K, V, O, R>, start: Store<K, V>, s: System<K, V, O, R>) {
    && s.store == Replay(run, start, s.history)
    && RepliesAgree(run, start, s.history)
  }

  ghost predicate Agrees<K, V, O, R>(s: System<K, V, O, R>, e: Event<K, V, O, R>) {
    e.tid in s.jobs && s.jobs[e.tid].call == e.call && s.jobs[e.tid].reply == Some(e.reply)
  }

  ghost predicate InHistory<K, V, O, R>(s: System<K, V, O, R>, tid: Tid) {
    exists e | 0 <= e < |s.history| :: s.history[e].tid == tid
  }

  ghost predicate EventsOk<K, V, O, R>(s: System<K, V, O, R>) {
    && (forall e | 0 <= e < |s.history| :: Agrees(s, s.history[e]))
    && (forall tid | tid in s.jobs && s.jobs[tid].reply.Some? :: InHistory(s, tid))
    && (forall e, f | 0 <= e < f < |s.history| :: s.history[e].tid != s.history[f].tid)
  }

  ghost predicate Inv<K, V, O, R>(run: Semantics<K, V, O, R>, start: Store<K, V>, s: System<K, V, O, R>) {
    LockInv(s.lk) && JobsOk(run, s) && HistoryOk(run, start, s) && EventsOk(s)
  }

  // A step replaces one job and one thread; an undecided call keeps its locks while others commit.
  lemma ActFrame<K, V, O, R>(run: Semantics<K, V, O, R>, s: System<K, V, O, R>, a: Action<K, V, O>)
    requires CanAct(run, s, a)
    ensures var s' := Act(run, s, a);
            && a.tid in s'.jobs && s'.jobs == s.jobs[a.tid := s'.jobs[a.tid]]
            && (s.jobs.Keys == s.lk.threads.Keys ==>
                  a.tid in s'.lk.threads && s'.lk.threads == s.lk.threads[a.tid := s'.lk.threads[a.tid]])
  {
    var move := LockMove(run, s, a);
    if move.Some? {
      StepFrame(s.lk, move.value);
    }
  }

  lemma LockInvStep<K, V, O, R>(run: Semantics<K, V, O, R>, s: System<K, V, O, R>, a: Action<K, V, O>)
    requires LockInv(s.lk) && CanAct(run, s, a)
    ensures LockInv(Act(run, s, a).lk)
  {
    var move := LockMove(run, s, a);
    if move.Some? {
      LockInvKept(s.lk, move.value);
    }
  }

  // The IDs of the parts an undecided call has started are locked by it.
  lemma StartedIsLocked<K, V, O, R>(s: System<K, V, O, R>, tid: Tid, p: nat)
    requires ThreadsOk(s.lk) && Shaped(s, tid) && s.jobs[tid].reply == None && p < |s.jobs[tid].overlay|
    ensures p < |s.jobs[tid].call.parts| && InRegion(s.lk.threads[tid], s.jobs[tid].call.parts[p].id)
  {
    var t := s.lk.threads[tid];
    assert ThreadOk(t);
    assert p < HeldCount(t) && t.ids[p] == s.jobs[tid].call.parts[p].id;
  }

  // Two undecided calls have started disjoint sets of parts.
  lemma StartedApart<K, V, O, R>(s: System<K, V, O, R>, t1: Tid, p1: nat, t2: Tid, p2: nat)
    requires ThreadsOk(s.lk) && RefsOk(s.lk) && HoldersOk(s.lk) && t1 != t2
    requires Shaped(s, t1) && s.jobs[t1].reply == None && p1 < |s.jobs[t1].overlay|
    requires Shaped(s, t2) && s.jobs[t2].reply == None && p2 < |s.jobs[t2].overlay|
    ensures p1 < |s.jobs[t1].call.parts| && p2 < |s.jobs[t2].call.parts|
    ensures s.jobs[t1].call.parts[p1].id != s.jobs[t2].call.parts[p2].id
  {
    StartedIsLocked(s, t1, p1);
    StartedIsLocked(s, t2, p2);
    if s.jobs[t1].call.parts[p1].id == s.jobs[t2].call.parts[p2].id {
      MutualExclusion(s.lk, t1, t2, s.jobs[t1].call.parts[p1].id);
    }
  }

  ghost predicate Commits<K, V, O, R>(s: System<K, V, O, R>, a: Action<K, V, O>) {
    a.Step? && Shaped(s, a.tid) && s.lk.threads[a.tid].pc.Commit? && !a.writeFails
  }

  lemma StoreAfter<K, V, O, R>(run: Semantics<K, V, O, R>, s: System<K, V, O, R>, a: Action<K, V, O>)
    requires CanAct(run, s, a)
    ensures !Commits(s, a) ==> Act(run, s, a).store == s.store
    ensures Commits(s, a) ==>
              var job := s.jobs[a.tid];
              && |job.overlay| == |job.call.parts|
              && Act(run, s, a).store ==
                  Store(CommitSpaces(s.store.spaces, job.call.parts, job.overlay), Patch(s.store.rest, job.call.batch))
  {
  }

  // A step leaves the spaces alone that another undecided call has started on.
  lemma OthersSpacesKept<K, V, O, R>(run: Semantics<K, V, O, R>, s: System<K, V, O, R>, a: Action<K, V, O>, other: Tid,
                                     p: nat)
    requires ThreadsOk(s.lk) && RefsOk(s.lk) && HoldersOk(s.lk) && CanAct(run, s, a)
    requires Shaped(s, other) && other != a.tid && s.jobs[other].reply == None && p < |s.jobs[other].overlay|
    ensures p < |s.jobs[other].call.parts|
    ensures SpaceOf(Act(run, s, a).store.spaces, s.jobs[other].call.parts[p].id) ==
            SpaceOf(s.store.spaces, s.jobs[other].call.parts[p].id)
  {
    StartedIsLocked(s, other, p);
    StoreAfter(run, s, a);
    if Commits(s, a) {
      var job := s.jobs[a.tid];
      forall i | 0 <= i < |job.call.parts|
        ensures job.call.parts[i].id != s.jobs[other].call.parts[p].id
      {
        StartedApart(s, a.tid, i, other, p);
      }
      CommitFrame(s.store.spaces, job.call.parts, job.overlay, s.jobs[other].call.parts[p].id);
    }
  }

  lemma OthersKept<K, V, O, R>(run: Semantics<K, V, O, R>, s: System<K, V, O, R>, a: Action<K, V, O>, other: Tid)
    requires ThreadsOk(s.lk) && RefsOk(s.lk) && HoldersOk(s.lk) && CanAct(run, s, a) && other != a.tid
    requires Shaped(s, other) && JobOk(run, s.store.spaces, s.lk.threads[other].pc, s.jobs[other])
    ensures JobOk(run, Act(run, s, a).store.spaces, s.lk.threads[other].pc, s.jobs[other])
  {
    var pc, job, spaces' := s.lk.threads[other].pc, s.jobs[other], Act(run, s, a).store.spaces;
    if job.reply == None {
      forall p | 0 <= p < |job.overlay|
        ensures RanSoFar(run, spaces', job.call.parts[p], DoneOps(pc, job, p), job.overlay[p], job.replies[p])
      {
        OthersSpacesKept(run, s, a, other, p);
        assert RanSoFar(run, s.store.spaces, job.call.parts[p], DoneOps(pc, job, p), job.overlay[p], job.replies[p]);
      }
    }
  }

  // The acting thread's own job stays consistent.
  lemma OwnKept<K, V, O, R>(run: Semantics<K, V, O, R>, s: System<K, V, O, R>, a: Action<K, V, O>)
    requires CanAct(run, s, a) && (a.Spawn? ==> a.tid !in s.lk.threads)
    requires a.Step? ==> JobOk(run, s.store.spaces, s.lk.threads[a.tid].pc, s.jobs[a.tid])
    ensures var s' := Act(run, s, a);
            Shaped(s', a.tid) && JobOk(run, s'.store.spaces, s'.lk.threads[a.tid].pc, s'.jobs[a.tid])
  {
    var s' := Act(run, s, a);
    if a.Step? {
      var pc, job := s.lk.threads[a.tid].pc, s.jobs[a.tid];
      var pc', job' := s'.lk.threads[a.tid].pc, s'.jobs[a.tid];
      match pc {
        case Lock(i) => OwnAfterLock(run, s, a, i);
        case Work(i) => OwnAfterWork(run, s, a, i);
        case MakeLock(i) =>
          assert job' == job && pc' == Locks.Lock(i);
          assert forall p | 0 <= p < |job.overlay| :: DoneOps(pc', job', p) == DoneOps(pc, job, p);
        case _ =>
      }
    }
  }

  lemma OwnAfterLock<K, V, O, R>(run: Semantics<K, V, O, R>, s: System<K, V, O, R>, a: Action<K, V, O>, i: nat)
    requires CanAct(run, s, a) && a.Step? && s.lk.threads[a.tid].pc == Locks.Lock(i)
    requires JobOk(run, s.store.spaces, s.lk.threads[a.tid].pc, s.jobs[a.tid])
    ensures var s' := Act(run, s, a);
            Shaped(s', a.tid) && JobOk(run, s'.store.spaces, s'.lk.threads[a.tid].pc, s'.jobs[a.tid])
  {
    var s' := Act(run, s, a);
    var job, job' := s.jobs[a.tid], s'.jobs[a.tid];
    var spaces, pc, pc' := s.store.spaces, s.lk.threads[a.tid].pc, s'.lk.threads[a.tid].pc;
    assert pc' == Work(i) && s'.store == s.store;
    forall p | 0 <= p < |job'.overlay|
      ensures RanSoFar(run, spaces, job'.call.parts[p], DoneOps(pc', job', p), job'.overlay[p], job'.replies[p])
    {
      if p < i {
        assert RanSoFar(run, spaces, job.call.parts[p], DoneOps(pc, job, p), job.overlay[p], job.replies[p]);
      } else {
        var space := SpaceOf(spaces, job.call.parts[i].id);
        assert Patch(space, map[]) == space;
        assert job.call.parts[i].ops[..0] == [];
      }
    }
  }

  lemma OwnAfterWork<K, V, O, R>(run: Semantics<K, V, O, R>, s: System<K, V, O, R>, a: Action<K, V, O>, i: nat)
    requires CanAct(run, s, a) && a.Step? && s.lk.threads[a.tid].pc == Work(i)
    requires JobOk(run, s.store.spaces, s.lk.threads[a.tid].pc, s.jobs[a.tid])
    ensures var s' := Act(run, s, a);
            Shaped(s', a.tid) && JobOk(run, s'.store.spaces, s'.lk.threads[a.tid].pc, s'.jobs[a.tid])
  {
    var s' := Act(run, s, a);
    var job, job' := s.jobs[a.tid], s'.jobs[a.tid];
    var spaces, pc, pc' := s.store.spaces, s.lk.threads[a.tid].pc, s'.lk.threads[a.tid].pc;
    assert s'.store == s.store;
    if job'.reply == None {
      forall p | 0 <= p < |job'.overlay|
        ensures DoneOps(pc', job', p) <= |job'.call.parts[p].ops|
        ensures RanSoFar(run, spaces, job'.call.parts[p], DoneOps(pc', job', p), job'.overlay[p], job'.replies[p])
      {
        assert RanSoFar(run, spaces, job.call.parts[p], DoneOps(pc, job, p), job.overlay[p], job.replies[p]);
        if p == i && job.done < |job.call.parts[i].ops| {
          OneMoreOp(run, spaces, job.call.parts[i], job.done, job.overlay[i], job.replies[i]);
        }
      }
    }
  }

  lemma OtherJobKept<K, V, O, R>(run: Semantics<K, V, O, R>, s: System<K, V, O, R>, a: Action<K, V, O>, tid: Tid)
    requires LockInv(s.lk) && CanAct(run, s, a) && s.jobs.Keys == s.lk.threads.Keys && tid != a.tid &&
             JobFine(run, s, tid)
    ensures JobFine(run, Act(run, s, a), tid)
  {
    ActFrame(run, s, a);
    OthersKept(run, s, a, tid);
    var s' := Act(run, s, a);
    assert s'.jobs[tid] == s.jobs[tid] && s'.lk.threads[tid] == s.lk.threads[tid];
  }

  lemma JobKept<K, V, O, R>(run: Semantics<K, V, O, R>, s: System<K, V, O, R>, s': System<K, V, O, R>,
                            a: Action<K, V, O>, tid: Tid)
    requires LockInv(s.lk) && JobsOk(run, s) && CanAct(run, s, a) && s' == Act(run, s, a) &&
             (tid in s.jobs || tid == a.tid)
    ensures JobFine(run, s', tid)
  {
    assert a.Step? ==> JobFine(run, s, a.tid);
    if tid == a.tid {
      OwnKept(run, s, a);
    } else {
      OtherJobKept(run, s, a, tid);
    }
  }

  // The threads and jobs still match.
  lemma SameThreads<K, V, O, R>(run: Semantics<K, V, O, R>, s: System<K, V, O, R>, s': System<K, V, O, R>,
                                a: Action<K, V, O>)
    requires s.jobs.Keys == s.lk.threads.Keys && CanAct(run, s, a) && s' == Act(run, s, a)
    ensures s'.jobs.Keys == s'.lk.threads.Keys == s.jobs.Keys + {a.tid}
  {
    ActFrame(run, s, a);
  }

  lemma JobsKept<K, V, O, R>(run: Semantics<K, V, O, R>, s: System<K, V, O, R>, s': System<K, V, O, R>,
                             a: Action<K, V, O>)
    requires LockInv(s.lk) && JobsOk(run, s) && CanAct(run, s, a) && s' == Act(run, s, a)
    ensures JobsOk(run, s')
  {
    SameThreads(run, s, s', a);
    forall tid | tid in s'.jobs
      ensures JobFine(run, s', tid)
    {
      JobKept(run, s, s', a, tid);
    }
  }

  // The event a step records, if any.
  function Recorded<K, V, O, R>(run: Semantics<K, V, O, R>, s: System<K, V, O, R>,
                                a: Action<K, V, O>): seq<Event<K, V, O, R>>
    requires a.Step? ==> Shaped(s, a.tid)
  {
    if a.Spawn? then []
    else
      var pc, job := s.lk.threads[a.tid].pc, s.jobs[a.tid];
      if pc.Work? && job.done < |job.call.parts[pc.i].ops| && Operate(run, s, a.tid).Refused? then
          [Event(a.tid, job.call, Rejected)]
      else if pc.Commit? then [Event(a.tid, job.call, if a.writeFails then WriteFailed else Success(job.replies))]
      else []
  }

  lemma HistoryAfter<K, V, O, R>(run: Semantics<K, V, O, R>, s: System<K, V, O, R>, a: Action<K, V, O>)
    requires CanAct(run, s, a)
    ensures Act(run, s, a).history == s.history + Recorded(run, s, a)
  {
  }

  lemma OneMoreEvent<K, V, O, R>(run: Semantics<K, V, O, R>, start: Store<K, V>, history: seq<Event<K, V, O, R>>,
                                 e: Event<K, V, O, R>)
    requires RepliesAgree(run, start, history)
    requires e.reply == WriteFailed || e.reply == Serial(run, Replay(run, start, history), e.call).1
    ensures RepliesAgree(run, start, history + [e])
    ensures Replay(run, start, history + [e]) ==
              if e.reply == WriteFailed then Replay(run, start, history)
                  else Serial(run, Replay(run, start, history), e.call).0
  {
    var longer := history + [e];
    assert longer[..|history|] == history;
    forall i | 0 <= i < |longer|
      ensures longer[i].reply == WriteFailed ||
              longer[i].reply == Serial(run, Replay(run, start, longer[..i]), longer[i].call).1
    {
      if i < |history| {
        assert longer[..i] == history[..i];
        assert longer[i] == history[i];
      }
    }
  }

  lemma RefusedSerially<K, V, O, R>(run: Semantics<K, V, O, R>, s: System<K, V, O, R>, a: Action<K, V, O>)
    requires ThreadsOk(s.lk) && CanAct(run, s, a) && a.Step? && s.lk.threads[a.tid].pc.Work?
    requires JobOk(run, s.store.spaces, s.lk.threads[a.tid].pc, s.jobs[a.tid])
    requires Recorded(run, s, a) != []
    ensures Serial(run, s.store, s.jobs[a.tid].call) == (s.store, Recorded(run, s, a)[0].reply)
  {
    var t, job := s.lk.threads[a.tid], s.jobs[a.tid];
    var i := t.pc.i;
    assert ThreadOk(t) && t.ids == Ids(job.call.parts);
    assert RanSoFar(run, s.store.spaces, job.call.parts[i], DoneOps(t.pc, job, i), job.overlay[i], job.replies[i]);
    OneMoreOp(run, s.store.spaces, job.call.parts[i], job.done, job.overlay[i], job.replies[i]);
    assert AllRan(run, s.store.spaces, job.call.parts[..i], job.overlay[..i], job.replies[..i]);
    PartsStuck(run, s.store.spaces, job.call.parts, i, job.overlay[..i], job.replies[..i], job.done + 1);
  }

  // The reply and effect of a decided call are those of running it alone on the store at that moment.
  lemma DecidedSerially<K, V, O, R>(run: Semantics<K, V, O, R>, s: System<K, V, O, R>, a: Action<K, V, O>)
    requires ThreadsOk(s.lk) && CanAct(run, s, a) && a.Step?
    requires JobOk(run, s.store.spaces, s.lk.threads[a.tid].pc, s.jobs[a.tid])
    requires Recorded(run, s, a) != [] && Recorded(run, s, a)[0].reply != WriteFailed
    ensures Serial(run, s.store, s.jobs[a.tid].call) == (Act(run, s, a).store, Recorded(run, s, a)[0].reply)
  {
    StoreAfter(run, s, a);
    if s.lk.threads[a.tid].pc.Work? {
      RefusedSerially(run, s, a);
    } else {
      var t, job := s.lk.threads[a.tid], s.jobs[a.tid];
      assert ThreadOk(t) && t.ids == Ids(job.call.parts);
      assert AllRan(run, s.store.spaces, job.call.parts, job.overlay, job.replies);
      PartsRun(run, s.store.spaces, job.call.parts, job.overlay, job.replies);
    }
  }

  lemma HistoryKept<K, V, O, R>(run: Semantics<K, V, O, R>, start: Store<K, V>, s: System<K, V, O, R>,
                                a: Action<K, V, O>)
    requires LockInv(s.lk) && JobsOk(run, s) && HistoryOk(run, start, s) && CanAct(run, s, a)
    ensures HistoryOk(run, start, Act(run, s, a))
  {
    HistoryAfter(run, s, a);
    StoreAfter(run, s, a);
    var recorded := Recorded(run, s, a);
    if recorded == [] {
      assert s.history + recorded == s.history;
    } else {
      if recorded[0].reply != WriteFailed {
        DecidedSerially(run, s, a);
      }
      assert recorded == [recorded[0]];
      OneMoreEvent(run, start, s.history, recorded[0]);
    }
  }

  // How a step changes the acting job's call and reply.
  lemma ReplyAfter<K, V, O, R>(run: Semantics<K, V, O, R>, s: System<K, V, O, R>, a: Action<K, V, O>)
    requires CanAct(run, s, a)
    ensures var job' := Act(run, s, a).jobs[a.tid]; var recorded := Recorded(run, s, a);
            && (a.Step? ==> job'.call == s.jobs[a.tid].call)
            && job'.reply == (if recorded != [] then Some(recorded[0].reply) else if a.Step? then s.jobs[a.tid].reply
                              else None)
            && (recorded != [] ==> |recorded| == 1 && a.Step? && s.jobs[a.tid].reply == None
                                   && recorded[0].tid == a.tid && recorded[0].call == s.jobs[a.tid].call)
  {
  }

  lemma EventsKept<K, V, O, R>(run: Semantics<K, V, O, R>, s: System<K, V, O, R>, a: Action<K, V, O>)
    requires EventsOk(s) && CanAct(run, s, a)
    ensures EventsOk(Act(run, s, a))
  {
    ActFrame(run, s, a);
    HistoryAfter(run, s, a);
    ReplyAfter(run, s, a);
    EventsExtended(s, Act(run, s, a), a, Recorded(run, s, a));
  }

  lemma EventsExtended<K, V, O, R>(s: System<K, V, O, R>, s': System<K, V, O, R>, a: Action<K, V, O>,
                                   recorded: seq<Event<K, V, O, R>>)
    requires EventsOk(s) && s'.history == s.history + recorded
    requires a.tid in s'.jobs && s'.jobs == s.jobs[a.tid := s'.jobs[a.tid]] && (a.Spawn? <==> a.tid !in s.jobs)
    requires a.Step? ==> s'.jobs[a.tid].call == s.jobs[a.tid].call
    requires s'.jobs[a.tid].reply ==
             (if recorded != [] then Some(recorded[0].reply) else if a.Step? then s.jobs[a.tid].reply else None)
    requires recorded != [] ==> |recorded| == 1 && a.Step? && s.jobs[a.tid].reply == None
                                && recorded[0].tid == a.tid && recorded[0].call == s.jobs[a.tid].call
    ensures EventsOk(s')
  {
    forall e | 0 <= e < |s.history|
      ensures s'.history[e] == s.history[e] && Agrees(s', s.history[e])
      ensures recorded != [] ==> s.history[e].tid != a.tid
    {
      assert Agrees(s, s.history[e]);
    }
    assert recorded != [] ==> s'.history[|s.history|] == recorded[0];
    forall tid | tid in s'.jobs && s'.jobs[tid].reply.Some?
      ensures InHistory(s', tid)
    {
      RecordGrown(s, s', tid, recorded);
    }
  }

  lemma RecordGrown<K, V, O, R>(s: System<K, V, O, R>, s': System<K, V, O, R>, tid: Tid,
                                recorded: seq<Event<K, V, O, R>>)
    requires s'.history == s.history + recorded && (InHistory(s, tid) || (recorded != [] && recorded[0].tid == tid))
    ensures InHistory(s', tid)
  {
    if InHistory(s, tid) {
      var k :| 0 <= k < |s.history| && s.history[k].tid == tid;
      assert s'.history[k].tid == tid;
    } else {
      assert s'.history[|s.history|].tid == tid;
    }
  }

  lemma InvKept<K, V, O, R>(run: Semantics<K, V, O, R>, start: Store<K, V>, s: System<K, V, O, R>, a: Action<K, V, O>)
    requires Inv(run, start, s) && CanAct(run, s, a)
    ensures Inv(run, start, Act(run, s, a))
  {
    LockInvStep(run, s, a);
    JobsKept(run, s, Act(run, s, a), a);
    HistoryKept(run, start, s, a);
    EventsKept(run, s, a);
  }

  lemma {:induction false} InvAlongRun<K, V, O, R>(run: Semantics<K, V, O, R>, start: Store<K, V>,
                                                   s: System<K, V, O, R>, actions: seq<Action<K, V, O>>)
    requires Inv(run, start, s) && IsRun(run, s, actions)
    ensures Inv(run, start, After(run, s, actions))
    decreases |actions|
  {
    if actions != [] {
      InvKept(run, start, s, actions[0]);
      InvAlongRun(run, start, Act(run, s, actions[0]), actions[1..]);
    }
  }

  // ---------- The theorems ----------

  // The call of thread tid is recorded, with the reply it gets when the calls recorded before it ran
  // one at a time.
  ghost predicate RepliedInOrder<K, V, O, R>(run: Semantics<K, V, O, R>, start: Store<K, V>, s: System<K, V, O, R>,
                                             tid: Tid)
    requires tid in s.jobs && s.jobs[tid].reply.Some?
  {
    var job := s.jobs[tid];
    exists e | 0 <= e < |s.history| ::
      && s.history[e] == Event(tid, job.call, job.reply.value)
      && (job.reply == Some(WriteFailed) ||
          job.reply == Some(Serial(run, Replay(run, start, s.history[..e]), job.call).1))
  }

  lemma DecidedInOrder<K, V, O, R>(run: Semantics<K, V, O, R>, start: Store<K, V>, s: System<K, V, O, R>, tid: Tid)
    requires RepliesAgree(run, start, s.history) && EventsOk(s) && tid in s.jobs && s.jobs[tid].reply.Some?
    ensures RepliedInOrder(run, start, s, tid)
  {
    assert InHistory(s, tid);
    var e :| 0 <= e < |s.history| && s.history[e].tid == tid;
    assert Agrees(s, s.history[e]);
    assert s.history[e] == Event(tid, s.jobs[tid].call, s.jobs[tid].reply.value);
  }

  // After any interleaving the store is the one, and every decided call got the reply, that running
  // the decided calls one at a time, in the order recorded, gives.
  lemma Serializable<K, V, O, R>(run: Semantics<K, V, O, R>, start: Store<K, V>, actions: seq<Action<K, V, O>>)
    requires IsRun(run, Initial(start), actions)
    ensures var s := After(run, Initial(start), actions);
            && s.store == Replay(run, start, s.history)
            && forall tid | tid in s.jobs && s.jobs[tid].reply.Some? :: RepliedInOrder(run, start, s, tid)
  {
    InvAlongRun(run, start, Initial(start), actions);
    SerializableState(run, start, After(run, Initial(start), actions));
  }

  lemma SerializableState<K, V, O, R>(run: Semantics<K, V, O, R>, start: Store<K, V>, s: System<K, V, O, R>)
    requires HistoryOk(run, start, s) && EventsOk(s)
    ensures s.store == Replay(run, start, s.history)
    ensures forall tid | tid in s.jobs && s.jobs[tid].reply.Some? :: RepliedInOrder(run, start, s, tid)
  {
    forall tid | tid in s.jobs && s.jobs[tid].reply.Some?
      ensures RepliedInOrder(run, start, s, tid)
    {
      DecidedInOrder(run, start, s, tid);
    }
  }

  // The record only grows, so a call decided before another one starts comes before it.
  lemma {:induction false} HistoryGrows<K, V, O, R>(run: Semantics<K, V, O, R>, s: System<K, V, O, R>,
                                                    actions: seq<Action<K, V, O>>)
    requires IsRun(run, s, actions)
    ensures s.history <= After(run, s, actions).history
    decreases |actions|
  {
    if actions != [] {
      HistoryAfter(run, s, actions[0]);
      HistoryGrows(run, Act(run, s, actions[0]), actions[1..]);
    }
  }

  // Calls that do not overlap are recorded in the order they were made: one that is decided before another
  // one is made stands before it, however the run goes on.
  lemma RealTimeOrder<K, V, O, R>(run: Semantics<K, V, O, R>, start: Store<K, V>, before: seq<Action<K, V, O>>,
                                  after: seq<Action<K, V, O>>, t1: Tid, t2: Tid)
    requires IsRun(run, Initial(start), before) && IsRun(run, After(run, Initial(start), before), after)
    requires var s := After(run, Initial(start), before); Decided(s, t1) && t2 !in s.jobs
    requires Decided(After(run, After(run, Initial(start), before), after), t2)
    ensures Precedes(After(run, After(run, Initial(start), before), after).history, t1, t2)
  {
    InvAlongRun(run, start, Initial(start), before);
    RealTimeFrom(run, start, After(run, Initial(start), before), after, t1, t2);
  }

  ghost predicate Decided<K, V, O, R>(s: System<K, V, O, R>, tid: Tid) {
    tid in s.jobs && s.jobs[tid].reply.Some?
  }

  ghost predicate Precedes<K, V, O, R>(history: seq<Event<K, V, O, R>>, t1: Tid, t2: Tid) {
    exists i, j | 0 <= i < j < |history| :: history[i].tid == t1 && history[j].tid == t2
  }

  lemma RealTimeFrom<K, V, O, R>(run: Semantics<K, V, O, R>, start: Store<K, V>, s: System<K, V, O, R>,
                                 after: seq<Action<K, V, O>>, t1: Tid, t2: Tid)
    requires Inv(run, start, s) && IsRun(run, s, after)
    requires Decided(s, t1) && t2 !in s.jobs && Decided(After(run, s, after), t2)
    ensures Precedes(After(run, s, after).history, t1, t2)
  {
    InvAlongRun(run, start, s, after);
    HistoryGrows(run, s, after);
    RecordedBefore(s, After(run, s, after), t1, t2);
  }

  lemma RecordedBefore<K, V, O, R>(s: System<K, V, O, R>, s': System<K, V, O, R>, t1: Tid, t2: Tid)
    requires EventsOk(s) && EventsOk(s') && s.history <= s'.history
    requires Decided(s, t1) && t2 !in s.jobs && Decided(s', t2)
    ensures Precedes(s'.history, t1, t2)
  {
    assert InHistory(s, t1) && InHistory(s', t2);
    forall k | 0 <= k < |s.history|
      ensures s'.history[k] == s.history[k] && s.history[k].tid != t2
    {
      assert Agrees(s, s.history[k]);
    }
    var i :| 0 <= i < |s.history| && s.history[i].tid == t1;
    var j :| 0 <= j < |s'.history| && s'.history[j].tid == t2;
    assert j >= |s.history| && s'.history[i].tid == t1;
  }

  // At every moment of every run, at most one thread is inside the region of a shared ID.
  lemma ExclusiveAlongRuns<K, V, O, R>(run: Semantics<K, V, O, R>, start: Store<K, V>, actions: seq<Action<K, V, O>>,
                                       t1: Tid, t2: Tid, id: SharedID)
    requires IsRun(run, Initial(start), actions)
    requires var lk := After(run, Initial(start), actions).lk;
             t1 in lk.threads && t2 in lk.threads && InRegion(lk.threads[t1], id) && InRegion(lk.threads[t2], id)
    ensures t1 == t2
  {
    InvAlongRun(run, start, Initial(start), actions);
    MutualExclusion(After(run, Initial(start), actions).lk, t1, t2, id);
  }

  // A call that only reads cannot fail to write.
  ghost predicate ReadsOk<K, V, O, R>(s: System<K, V, O, R>) {
    forall tid | tid in s.jobs :: s.jobs[tid].call.readOnly ==> s.jobs[tid].reply != Some(WriteFailed)
  }

  lemma ReadsKept<K, V, O, R>(run: Semantics<K, V, O, R>, s: System<K, V, O, R>, s': System<K, V, O, R>,
                              a: Action<K, V, O>)
    requires ReadsOk(s) && CanAct(run, s, a) && s' == Act(run, s, a)
    ensures ReadsOk(s')
  {
    ActFrame(run, s, a);
    ReplyAfter(run, s, a);
    assert a.Spawn? ==> s'.jobs[a.tid].reply == None;
    assert a.Step? ==> a.tid in s.jobs;
  }

  lemma {:induction false} ReadsAlongRun<K, V, O, R>(run: Semantics<K, V, O, R>, s: System<K, V, O, R>,
                                                     actions: seq<Action<K, V, O>>)
    requires ReadsOk(s) && IsRun(run, s, actions)
    ensures ReadsOk(After(run, s, actions))
    decreases |actions|
  {
    if actions != [] {
      ReadsKept(run, s, Act(run, s, actions[0]), actions[0]);
      ReadsAlongRun(run, Act(run, s, actions[0]), actions[1..]);
    }
  }
}
