/**
 Progress of concurrent calls on shared memory: some call can always step until all are done, and
 every step brings one call closer to its end.
 */
module SerializabilityProgress {
  import opened Wrappers
  import opened Locks
  import opened Serializability
  import opened SerializabilityProof

  // Steps to take the locks of parts[i..] and do their operations.
  function WorkLeft<O>(parts: seq<Part<O>>, i: nat): nat
    requires i <= |parts|
    decreases |parts| - i
  {
    if i == |parts| then 0 else |parts[i].ops| + 3 + WorkLeft(parts, i + 1)
  }

  // An upper bound on the steps a thread has left.
  function StepsLeft<K, V, O, R>(s: System<K, V, O, R>, tid: Tid): nat
    requires Shaped(s, tid)
  {
    var job, n := s.jobs[tid], |s.jobs[tid].call.parts|;
    match s.lk.threads[tid].pc
    case MakeLock(i) => WorkLeft(job.call.parts, i) + 1 + 2 * n
    case Lock(i) => WorkLeft(job.call.parts, i) + 2 * n
    case Work(i) => |job.call.parts[i].ops| - job.done + 1 + WorkLeft(job.call.parts, i + 1) + 1 + 2 * n
    case Commit => 1 + 2 * n
    case ReleaseLock(i) => 2 * i + 2
    case Unlock(i, _) => 2 * i + 1
    case Finished => 0
  }

  lemma StepsDecrease<K, V, O, R>(run: Semantics<K, V, O, R>, s: System<K, V, O, R>, a: Action<K, V, O>)
    requires CanAct(run, s, a) && a.Step? && Shaped(Act(run, s, a), a.tid) && ThreadsOk(s.lk)
    ensures StepsLeft(Act(run, s, a), a.tid) < StepsLeft(s, a.tid)
  {
    var pc := s.lk.threads[a.tid].pc;
    if pc.Work? {
      WorkDecreases(run, s, Act(run, s, a), a);
    } else if pc.MakeLock? || pc.Lock? {
      AcquiringDecreases(run, s, Act(run, s, a), a);
    } else {
      ReleasingDecreases(run, s, Act(run, s, a), a);
    }
  }

  lemma WorkDecreases<K, V, O, R>(run: Semantics<K, V, O, R>, s: System<K, V, O, R>, s': System<K, V, O, R>,
                                  a: Action<K, V, O>)
    requires CanAct(run, s, a) && a.Step? && s' == Act(run, s, a) && Shaped(s', a.tid) && ThreadOk(s.lk.threads[a.tid])
    requires s.lk.threads[a.tid].pc.Work?
    ensures StepsLeft(s', a.tid) < StepsLeft(s, a.tid)
  {
  }

  lemma AcquiringDecreases<K, V, O, R>(run: Semantics<K, V, O, R>, s: System<K, V, O, R>, s': System<K, V, O, R>,
                                       a: Action<K, V, O>)
    requires CanAct(run, s, a) && a.Step? && s' == Act(run, s, a) && Shaped(s', a.tid)
    requires s.lk.threads[a.tid].pc.MakeLock? || s.lk.threads[a.tid].pc.Lock?
    ensures StepsLeft(s', a.tid) < StepsLeft(s, a.tid)
  {
    var pc' := s'.lk.threads[a.tid].pc;
    assert s'.jobs[a.tid].call == s.jobs[a.tid].call;
    match s.lk.threads[a.tid].pc {
      case MakeLock(i) => assert pc' == Locks.Lock(i);
      case Lock(i) => assert pc' == Work(i) && s'.jobs[a.tid].done == 0;
    }
  }

  lemma ReleasingDecreases<K, V, O, R>(run: Semantics<K, V, O, R>, s: System<K, V, O, R>, s': System<K, V, O, R>,
                                       a: Action<K, V, O>)
    requires CanAct(run, s, a) && a.Step? && s' == Act(run, s, a) && Shaped(s', a.tid)
    requires var pc := s.lk.threads[a.tid].pc; !pc.MakeLock? && !pc.Lock? && !pc.Work?
    ensures StepsLeft(s', a.tid) < StepsLeft(s, a.tid)
  {
    var t, pc' := s.lk.threads[a.tid], s'.lk.threads[a.tid].pc;
    match t.pc {
      case Commit => assert pc' == Unwind(|t.ids|);
      case ReleaseLock(i) => assert pc'.Unlock? && pc'.i == i;
      case Unlock(i, _) => assert pc' == Unwind(i);
      case _ =>
    }
  }

  // The steps all threads have left, as a set: thread tid contributes (tid, 0), (tid, 1), ...
  ghost function Pending<K, V, O, R>(s: System<K, V, O, R>): set<(Tid, nat)>
    requires forall tid | tid in s.jobs :: Shaped(s, tid)
  {
    set tid, k: nat | tid in s.jobs && 0 <= k < StepsLeft(s, tid) :: (tid, k)
  }

  lemma PendingLess<K, V, O, R>(s: System<K, V, O, R>, s': System<K, V, O, R>, tid: Tid)
    requires tid in s.jobs && s.jobs.Keys == s'.jobs.Keys
    requires forall t | t in s.jobs :: Shaped(s, t) && Shaped(s', t)
    requires forall t | t in s.jobs && t != tid :: StepsLeft(s', t) == StepsLeft(s, t)
    requires StepsLeft(s', tid) < StepsLeft(s, tid)
    ensures Pending(s') < Pending(s)
  {
    var last := (tid, StepsLeft(s', tid));
    assert last in Pending(s) && last !in Pending(s');
  }

  lemma OthersStepsSame<K, V, O, R>(run: Semantics<K, V, O, R>, s: System<K, V, O, R>, a: Action<K, V, O>, tid: Tid)
    requires CanAct(run, s, a) && s.jobs.Keys == s.lk.threads.Keys && tid != a.tid && Shaped(s, tid)
    ensures Shaped(Act(run, s, a), tid) && StepsLeft(Act(run, s, a), tid) == StepsLeft(s, tid)
  {
    ActFrame(run, s, a);
    var s' := Act(run, s, a);
    assert s'.jobs[tid] == s.jobs[tid] && s'.lk.threads[tid] == s.lk.threads[tid];
  }

  lemma PendingShrinks<K, V, O, R>(run: Semantics<K, V, O, R>, s: System<K, V, O, R>, s': System<K, V, O, R>,
                                   a: Action<K, V, O>)
    requires LockInv(s.lk) && JobsOk(run, s) && CanAct(run, s, a) && a.Step? && s' == Act(run, s, a)
    ensures JobsOk(run, s') && s'.jobs.Keys == s.jobs.Keys && Pending(s') < Pending(s)
  {
    JobsKept(run, s, s', a);
    KeysSame(run, s, a);
    forall tid | tid in s.jobs
      ensures Shaped(s, tid) && Shaped(s', tid)
    {
      assert JobFine(run, s, tid) && JobFine(run, s', tid);
    }
    StepsDecrease(run, s, a);
    forall tid | tid in s.jobs && tid != a.tid
      ensures StepsLeft(s', tid) == StepsLeft(s, tid)
    {
      OthersStepsSame(run, s, a, tid);
    }
    PendingLess(s, s', a.tid);
  }

  lemma KeysSame<K, V, O, R>(run: Semantics<K, V, O, R>, s: System<K, V, O, R>, a: Action<K, V, O>)
    requires CanAct(run, s, a) && a.Step?
    ensures Act(run, s, a).jobs.Keys == s.jobs.Keys
  {
    ActFrame(run, s, a);
  }

  ghost predicate AllFinished<K, V, O, R>(s: System<K, V, O, R>) {
    forall tid | tid in s.lk.threads :: s.lk.threads[tid].pc == Finished
  }

  lemma StepAvailable<K, V, O, R>(run: Semantics<K, V, O, R>, s: System<K, V, O, R>, tid: Tid)
    requires Shaped(s, tid) && Enabled(s.lk, Go(tid))
    ensures CanAct(run, s, Step(tid, false))
  {
  }

  // While a call is unfinished, some call can step.
  lemma SomeoneCanStep<K, V, O, R>(run: Semantics<K, V, O, R>, start: Store<K, V>, s: System<K, V, O, R>)
    returns (mover: Tid)
    requires Inv(run, start, s) && !AllFinished(s)
    ensures CanAct(run, s, Step(mover, false))
  {
    var tid :| tid in s.lk.threads && s.lk.threads[tid].pc != Finished;
    NoDeadlock(s.lk, tid);
    mover :| mover in s.lk.threads && Enabled(s.lk, Go(mover));
    assert JobFine(run, s, mover);
    StepAvailable(run, s, mover);
  }

  // Every step of a started call uses up one of finitely many pending steps: a run without new
  // calls is no longer than that, and ends with every call finished if it cannot be extended.
  lemma {:induction false} RunsEnd<K, V, O, R>(run: Semantics<K, V, O, R>, start: Store<K, V>, s: System<K, V, O, R>,
                                               actions: seq<Action<K, V, O>>)
    requires Inv(run, start, s) && IsRun(run, s, actions) && forall a | a in actions :: a.Step?
    ensures JobsOk(run, After(run, s, actions)) && |actions| + |Pending(After(run, s, actions))| <= |Pending(s)|
    ensures (forall tid :: !CanAct(run, After(run, s, actions), Step(tid, false))) ==>
              AllFinished(After(run, s, actions))
    decreases |actions|
  {
    if actions == [] {
      if !AllFinished(s) {
        var mover := SomeoneCanStep(run, start, s);
      }
    } else {
      var s' := Act(run, s, actions[0]);
      InvKept(run, start, s, actions[0]);
      PendingShrinks(run, s, s', actions[0]);
      SmallerSet(Pending(s'), Pending(s));
      RunsEnd(run, start, s', actions[1..]);
    }
  }

  lemma SmallerSet<T>(a: set<T>, b: set<T>)
    requires a < b
    ensures |a| < |b|
  {
    assert b == a + (b - a);
    assert b - a != {};
  }

  // Every state a run can reach can be continued to one where every call has finished.
  lemma {:induction false} CanAlwaysFinish<K, V, O, R>(run: Semantics<K, V, O, R>, start: Store<K, V>,
                                                       s: System<K, V, O, R>) returns (actions: seq<Action<K, V, O>>)
    requires Inv(run, start, s)
    ensures IsRun(run, s, actions) && AllFinished(After(run, s, actions))
    ensures After(run, s, actions).jobs.Keys == s.jobs.Keys
    decreases Pending(s)
  {
    if AllFinished(s) {
      actions := [];
    } else {
      var mover := SomeoneCanStep(run, start, s);
      var a := Step(mover, false);
      var s' := Act(run, s, a);
      InvKept(run, start, s, a);
      PendingShrinks(run, s, s', a);
      var rest := CanAlwaysFinish(run, start, s');
      actions := [a] + rest;
      assert actions[1..] == rest;
    }
  }

  // ---------- All runs ----------

  // In every reachable state the count of a lock entry is the number of threads between makeLock and
  // releaseLock on it, so entries in the map are exactly those in use.
  lemma CountsAlongRuns<K, V, O, R>(run: Semantics<K, V, O, R>, start: Store<K, V>, actions: seq<Action<K, V, O>>,
                                    id: SharedID)
    requires IsRun(run, Initial(start), actions)
    ensures var lk := After(run, Initial(start), actions).lk;
            id in lk.locks ==> lk.locks[id] in lk.heap && lk.heap[lk.locks[id]].count == |Users(lk, id)| > 0
  {
    InvAlongRun(run, start, Initial(start), actions);
    if id in After(run, Initial(start), actions).lk.locks {
      CountOf(After(run, Initial(start), actions).lk, id);
    }
  }

  lemma CountOf(lk: LockState, id: SharedID)
    requires EntriesOk(lk) && CountsOk(lk) && id in lk.locks
    ensures lk.locks[id] in lk.heap && lk.heap[lk.locks[id]].count == |Users(lk, id)| > 0
  {
    assert lk.locks[id] in lk.heap;
  }

  // No run deadlocks: in every reachable state all calls have finished or one can step...
  lemma NeverStuck<K, V, O, R>(run: Semantics<K, V, O, R>, start: Store<K, V>, actions: seq<Action<K, V, O>>)
    requires IsRun(run, Initial(start), actions)
    ensures var s := After(run, Initial(start), actions);
            AllFinished(s) || exists tid :: CanAct(run, s, Step(tid, false))
  {
    InvAlongRun(run, start, Initial(start), actions);
    var s := After(run, Initial(start), actions);
    if !AllFinished(s) {
      var mover := SomeoneCanStep(run, start, s);
    }
  }

  // ... and all calls can be run to their end.
  lemma AlwaysFinishable<K, V, O, R>(run: Semantics<K, V, O, R>, start: Store<K, V>, actions: seq<Action<K, V, O>>)
    returns (more: seq<Action<K, V, O>>)
    requires IsRun(run, Initial(start), actions)
    ensures var s := After(run, Initial(start), actions);
            IsRun(run, s, more) && AllFinished(After(run, s, more)) && After(run, s, more).jobs.Keys == s.jobs.Keys
  {
    InvAlongRun(run, start, Initial(start), actions);
    more := CanAlwaysFinish(run, start, After(run, Initial(start), actions));
  }
}
