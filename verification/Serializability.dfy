/**
 Concurrent calls on shared memory. Threads take the ref-counted locks of module Locks, run
 their operations one by one on an overlay of the base store, and write the overlay and the
 caller's extra batch in one atomic batch (Apply); Get and Indexed are calls without writes.

 A shared space is a map from cells to values. What one operation does is a parameter, `run`:
 the results hold for every mix of puts, removes and reads.
 */
module Serializability {
  import opened Wrappers
  import opened Locks

  // ---------- Calls and their sequential meaning ----------

  // What an operation does to the space it sees: the cells it writes (None deletes) and its reply.
  datatype Outcome<K, V, R> = Accepted(writes: map<K, Option<V>>, reply: R) | Refused

  // The meaning of the operations on a space.
  type Semantics<!K, !V, !O, R> = (map<K, V>, O) -> Outcome<K, V, R>

  datatype Part<O> = Part(id: SharedID, ops: seq<O>)

  // One call: its operations per shared ID in lock order, the caller's extra batch, and whether it only
  // reads, so that nothing is written at its end.
  datatype Call<K, V, O> = Call(parts: seq<Part<O>>, batch: map<K, Option<V>>, readOnly: bool)

  // The base store: the shared spaces and everything else.
  datatype Store<K, V> = Store(spaces: map<SharedID, map<K, V>>, rest: map<K, V>)

  datatype Reply<R> = Success(replies: seq<seq<R>>) | Rejected | WriteFailed

  datatype Ran<K, V, R> = Ran(space: map<K, V>, replies: seq<R>) | Stuck

  datatype RanAll<K, V, R> = RanAll(spaces: map<SharedID, map<K, V>>, replies: seq<seq<R>>) | StuckAll

  function SpaceOf<K, V>(spaces: map<SharedID, map<K, V>>, id: SharedID): map<K, V> {
    if id in spaces then spaces[id] else map[]
  }

  function Patch<K, V>(base: map<K, V>, writes: map<K, Option<V>>): map<K, V> {
    map k | k in base.Keys + writes.Keys && (k in writes ==> writes[k].Some?) ::
      if k in writes then writes[k].value else base[k]
  }

  function RunOps<K, V, O, R>(run: Semantics<K, V, O, R>, space: map<K, V>, ops: seq<O>): Ran<K, V, R> {
    if ops == [] then Ran(space, [])
    else
      match RunOps(run, space, ops[..|ops| - 1])
      case Stuck => Stuck
      case Ran(current, replies) =>
        match run(current, ops[|ops| - 1])
        case Refused => Stuck
        case Accepted(writes, reply) => Ran(Patch(current, writes), replies + [reply])
  }

  function RunParts<K, V, O, R>(run: Semantics<K, V, O, R>, spaces: map<SharedID, map<K, V>>, parts: seq<Part<O>>)
    : RanAll<K, V, R>
  {
    if parts == [] then RanAll(spaces, [])
    else
      var last := parts[|parts| - 1];
      match RunParts(run, spaces, parts[..|parts| - 1])
      case StuckAll => StuckAll
      case RanAll(before, replies) =>
        match RunOps(run, SpaceOf(before, last.id), last.ops)
        case Stuck => StuckAll
        case Ran(space, reply) => RanAll(before[last.id := space], replies + [reply])
  }

  // One call run alone: either every operation and the batch take effect, or nothing does.
  function Serial<K, V, O, R>(run: Semantics<K, V, O, R>, store: Store<K, V>, call: Call<K, V, O>)
    : (Store<K, V>, Reply<R>)
  {
    match RunParts(run, store.spaces, call.parts)
    case StuckAll => (store, Rejected)
    case RanAll(spaces, replies) => (Store(spaces, Patch(store.rest, call.batch)), Success(replies))
  }

  datatype Event<K, V, O, R> = Event(tid: Tid, call: Call<K, V, O>, reply: Reply<R>)

  // The store after running the calls of `events` one at a time. A call whose base write
  // fails changes nothing.
  function Replay<K, V, O, R>(run: Semantics<K, V, O, R>, store: Store<K, V>, events: seq<Event<K, V, O, R>>)
    : Store<K, V>
  {
    if events == [] then store
    else
      var last := events[|events| - 1];
      var before := Replay(run, store, events[..|events| - 1]);
      if last.reply == WriteFailed then before else Serial(run, before, last.call).0
  }

  // Every recorded reply is the one the call gets when the calls run one at a time.
  ghost predicate RepliesAgree<K, V, O, R>(run: Semantics<K, V, O, R>, store: Store<K, V>,
                                           events: seq<Event<K, V, O, R>>) {
    forall i | 0 <= i < |events| ::
      events[i].reply == WriteFailed ||
          events[i].reply == Serial(run, Replay(run, store, events[..i]), events[i].call).1
  }

  // ---------- The machine ----------

  // What a thread has computed: overlay[i] holds the uncommitted writes to parts[i].id, and
  // `done` operations of the part it works on are done.
  datatype Job<K, V, O, R> = Job(
    call: Call<K, V, O>,
    done: nat,
    overlay: seq<map<K, Option<V>>>,
    replies: seq<seq<R>>,
    reply: Option<Reply<R>>)

  datatype System<K, V, O, R> = System(
    lk: LockState,
    jobs: map<Tid, Job<K, V, O, R>>,
    store: Store<K, V>,
    history: seq<Event<K, V, O, R>>)

  datatype Action<K, V, O> =
    | Spawn(tid: Tid, call: Call<K, V, O>)
    | Step(tid: Tid, writeFails: bool)

  function Ids<O>(parts: seq<Part<O>>): seq<SharedID> {
    seq(|parts|, i requires 0 <= i < |parts| => parts[i].id)
  }

  // The move of the lock layer that a step makes, if any.
  function LockMove<K, V, O, R>(run: Semantics<K, V, O, R>, s: System<K, V, O, R>, a: Action<K, V, O>): Option<Move>
    requires a.Step? ==> Shaped(s, a.tid)
  {
    match a
    case Spawn(tid, call) => Some(Start(tid, Ids(call.parts)))
    case Step(tid, _) =>
      var pc, job := s.lk.threads[tid].pc, s.jobs[tid];
      if pc.Work? && job.done < |job.call.parts[pc.i].ops| then
        if Operate(run, s, tid).Refused? then Some(Abort(tid)) else None
      else Some(Go(tid))
  }

  // The job of a thread fits its program counter.
  predicate Shaped<K, V, O, R>(s: System<K, V, O, R>, tid: Tid) {
    && tid in s.lk.threads && tid in s.jobs
    && var t, job := s.lk.threads[tid], s.jobs[tid];
    && t.ids == Ids(job.call.parts)
    && match t.pc
       case MakeLock(i) => i < |t.ids| && |job.overlay| == |job.replies| == i && job.reply == None
       case Lock(i) => i < |t.ids| && |job.overlay| == |job.replies| == i && job.reply == None
       case Work(i) => i < |t.ids| && |job.overlay| == |job.replies| == i + 1 && job.reply == None &&
           job.done <= |job.call.parts[i].ops|
       case Commit => |job.overlay| == |job.replies| == |t.ids| && job.reply == None
       case _ => job.reply.Some?
  }

  // One operation, on the current base seen through the call's own overlay.
  function Operate<K, V, O, R>(run: Semantics<K, V, O, R>, s: System<K, V, O, R>, tid: Tid): Outcome<K, V, R>
    requires Shaped(s, tid) && s.lk.threads[tid].pc.Work? &&
             s.jobs[tid].done < |s.jobs[tid].call.parts[s.lk.threads[tid].pc.i].ops|
  {
    var job, i := s.jobs[tid], s.lk.threads[tid].pc.i;
    run(Patch(SpaceOf(s.store.spaces, job.call.parts[i].id), job.overlay[i]), job.call.parts[i].ops[job.done])
  }

  function CommitSpaces<K, V, O>(spaces: map<SharedID, map<K, V>>, parts: seq<Part<O>>, overlay: seq<map<K, Option<V>>>)
    : map<SharedID, map<K, V>>
    requires |overlay| == |parts|
  {
    if parts == [] then spaces
    else
      var n := |parts| - 1;
      CommitSpaces(spaces, parts[..n], overlay[..n])[parts[n].id := Patch(SpaceOf(spaces, parts[n].id), overlay[n])]
  }

  ghost predicate CanAct<K, V, O, R>(run: Semantics<K, V, O, R>, s: System<K, V, O, R>, a: Action<K, V, O>) {
    && (a.Step? ==> Shaped(s, a.tid) && (a.writeFails ==> !s.jobs[a.tid].call.readOnly))
    && (a.Spawn? ==> a.tid !in s.jobs)
    && var move := LockMove(run, s, a);
    && (move.Some? ==> Enabled(s.lk, move.value))
  }

  function Conclude<K, V, O, R>(s: System<K, V, O, R>, tid: Tid, reply: Reply<R>): System<K, V, O, R>
    requires tid in s.jobs
  {
    s.(jobs := s.jobs[tid := s.jobs[tid].(reply := Some(reply))],
       history := s.history + [Event(tid, s.jobs[tid].call, reply)])
  }

  // The data part of a step.
  function Data<K, V, O, R>(run: Semantics<K, V, O, R>, s: System<K, V, O, R>, a: Action<K, V, O>): System<K, V, O, R>
    requires a.Step? ==> Shaped(s, a.tid)
  {
    match a
    case Spawn(tid, call) => s.(jobs := s.jobs[tid := Job(call, 0, [], [], None)])
    case Step(tid, writeFails) =>
      var job := s.jobs[tid];
      match s.lk.threads[tid].pc
      case Lock(i) =>
        s.(jobs := s.jobs[tid := job.(done := 0, overlay := job.overlay + [map[]], replies := job.replies + [[]])])
      case Work(i) =>
        if job.done == |job.call.parts[i].ops| then s
        else (
          match Operate(run, s, tid)
          case Refused => Conclude(s, tid, Rejected)
          case Accepted(writes, reply) =>
            s.(jobs := s.jobs[tid := job.(done := job.done + 1,
                                          overlay := job.overlay[i := job.overlay[i] + writes],
                                          replies := job.replies[i := job.replies[i] + [reply]])]))
      case Commit =>
        if writeFails then Conclude(s, tid, WriteFailed)
        else
          var spaces := CommitSpaces(s.store.spaces, job.call.parts, job.overlay);
          Conclude(s.(store := Store(spaces, Patch(s.store.rest, job.call.batch))), tid, Success(job.replies))
      case _ => s
  }

  ghost function Act<K, V, O, R>(run: Semantics<K, V, O, R>, s: System<K, V, O, R>,
                                 a: Action<K, V, O>): System<K, V, O, R>
    requires CanAct(run, s, a)
  {
    var move := LockMove(run, s, a);
    Data(run, s, a).(lk := if move.Some? then Locks.Next(s.lk, move.value) else s.lk)
  }

  function Initial<K, V, O, R>(store: Store<K, V>): System<K, V, O, R> {
    System(LockState(map[], map[], 0, map[]), map[], store, [])
  }

  // `actions` is a run of the machine from `s`.
  ghost predicate IsRun<K, V, O, R>(run: Semantics<K, V, O, R>, s: System<K, V, O, R>, actions: seq<Action<K, V, O>>)
    decreases |actions|
  {
    actions == [] || (CanAct(run, s, actions[0]) && IsRun(run, Act(run, s, actions[0]), actions[1..]))
  }

  ghost function After<K, V, O, R>(run: Semantics<K, V, O, R>, s: System<K, V, O, R>, actions: seq<Action<K, V, O>>)
    : System<K, V, O, R>
    requires IsRun(run, s, actions)
    decreases |actions|
  {
    if actions == [] then s else After(run, Act(run, s, actions[0]), actions[1..])
  }
}
