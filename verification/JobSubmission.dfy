/** Source-event submission as a state machine whose steps are the stretches of code between two
    awaits (orchestrator/job_manager.py, `submit_job`, `_await_job_loadable`, `_create_job`). */
module JobSubmission {
  import opened IdempotencyStore

  datatype Result =
    | Returned(jobId: string)
    | PendingError(jobId: string)
    | ConflictError(jobId: string)
    | QueueFull(jobId: string)
    | EmitFailed
    | Cancelled

  /** Where a submission is suspended. */
  datatype Phase =
    | Waiting
    | Polling(jobId: string, left: nat)
    | Diverging(jobId: string)
    | Conflicting(jobId: string)
    | Emitting(jobId: string)
    | Done(result: Result)

  datatype Task = Task(key: string, intent: string, phase: Phase)

  /** `jobs` is the in-memory cache and `stored` the jobs table, both with the job's status;
      `sources` the source-event mapping; `locks` the per-key locks.  `created` and `abandoned`
      record history: jobs materialized, and keys whose owner was cut off while emitting. */
  datatype State = State(
    persistent: bool,
    jobs: map<string, string>,
    stored: map<string, string>,
    sources: map<string, SourceRecord>,
    tasks: map<nat, Task>,
    locks: map<string, nat>,
    ids: set<string>,
    created: set<(string, string)>,
    abandoned: set<string>)

  const POLLS := 5

  function Initial(persistent: bool): State {
    State(persistent, map[], map[], map[], map[], map[], {}, {}, {})
  }

  datatype Step =
    | Submit(t: nat, key: string, intent: string)
    | Enter(t: nat, candidate: string, now: int)
    | Poll(t: nat)
    | Diverged(t: nat)
    | ConflictSent(t: nat, ok: bool)
    | Emitted(t: nat, ok: bool, queueFull: bool)
    | Cancel(t: nat)
    | Pipeline(jobId: string, status: string)
    | OtherJob(jobId: string)
    | Restart

  predicate Holding(p: Phase) {
    p.Polling? || p.Diverging? || p.Conflicting? || p.Emitting?
  }

  predicate Loadable(s: State, jobId: string) {
    jobId in s.jobs || jobId in s.stored
  }

  function Persist(s: State, jobId: string, status: string): State {
    s.(jobs := s.jobs[jobId := status], stored := if s.persistent then s.stored[jobId := status] else s.stored)
  }

  function Move(s: State, t: nat, phase: Phase): State
    requires t in s.tasks
  {
    s.(tasks := s.tasks[t := s.tasks[t].(phase := phase)])
  }

  /** A submission ends: its result is known and its lock, if it holds one, is free. */
  function Finish(s: State, t: nat, result: Result): State
    requires t in s.tasks
  {
    var key := s.tasks[t].key;
    var s' := Move(s, t, Done(result));
    if Holding(s.tasks[t].phase) then s'.(locks := s'.locks - {key}) else s'
  }

  predicate Enabled(s: State, step: Step) {
    match step
    case Submit(t, _, _) => t !in s.tasks
    case Enter(t, candidate, _) =>
      t in s.tasks && s.tasks[t].phase.Waiting? && s.tasks[t].key !in s.locks && candidate !in s.ids
    case Poll(t) => t in s.tasks && s.tasks[t].phase.Polling?
    case Diverged(t) => t in s.tasks && s.tasks[t].phase.Diverging?
    case ConflictSent(t, _) => t in s.tasks && s.tasks[t].phase.Conflicting?
    case Emitted(t, _, _) => t in s.tasks && s.tasks[t].phase.Emitting?
    case Cancel(t) => t in s.tasks && !s.tasks[t].phase.Done?
    case Pipeline(jobId, _) => jobId in s.jobs
    case OtherJob(jobId) => jobId !in s.ids
    case Restart => s.persistent
  }

  /** Lock taken: reserve, then run to the first await. */
  function EnterLocked(s: State, t: nat, candidate: string, now: int): State
    requires t in s.tasks
  {
    var task := s.tasks[t];
    var (status, record, sources) := Reserve(s.sources, task.key, SourceRecord(candidate, task.intent, now));
    var locked := s.(sources := sources, ids := s.ids + {candidate}, locks := s.locks[task.key := t]);
    match status
    case Equivalent =>
      if Loadable(s, record.jobId) then s.(ids := s.ids + {candidate}, tasks := s.tasks[t := task.(phase := Done(Returned(record.jobId)))])
      else Move(locked, t, Polling(record.jobId, POLLS))
    case Conflict => Move(locked, t, Conflicting(record.jobId))
    case New => Move(locked, t, Emitting(candidate))
  }

  /** The durable event was acknowledged, or not. */
  function AfterEmit(s: State, t: nat, ok: bool, queueFull: bool): State
    requires t in s.tasks && s.tasks[t].phase.Emitting?
  {
    var key, jobId := s.tasks[t].key, s.tasks[t].phase.jobId;
    if ok then
      var s' := Persist(s, jobId, if queueFull then "failed" else "submitted").(created := s.created + {(key, jobId)});
      Finish(s', t, if queueFull then QueueFull(jobId) else Returned(jobId))
    else
      var s' := if Loadable(s, jobId) then s else s.(sources := Release(s.sources, key, jobId));
      Finish(s', t, EmitFailed)
  }

  predicate TerminalJob(status: string) {
    status == "delivered" || status == "failed" || status == "revoked"
  }

  function Next(s: State, step: Step): State
    requires Enabled(s, step)
  {
    match step
    case Submit(t, key, intent) => s.(tasks := s.tasks[t := Task(key, intent, Waiting)])
    case Enter(t, candidate, now) => EnterLocked(s, t, candidate, now)
    case Poll(t) =>
      var p := s.tasks[t].phase;
      if Loadable(s, p.jobId) then Finish(s, t, Returned(p.jobId))
      else if p.left <= 1 then Move(s, t, Diverging(p.jobId))
      else Move(s, t, Polling(p.jobId, p.left - 1))
    case Diverged(t) => Finish(s, t, PendingError(s.tasks[t].phase.jobId))
    case ConflictSent(t, ok) =>
      Finish(s, t, if ok then ConflictError(s.tasks[t].phase.jobId) else EmitFailed)
    case Emitted(t, ok, queueFull) => AfterEmit(s, t, ok, queueFull)
    case Cancel(t) =>
      var s' := if s.tasks[t].phase.Emitting? then s.(abandoned := s.abandoned + {s.tasks[t].key}) else s;
      Finish(s', t, Cancelled)
    case Pipeline(jobId, status) => Persist(s, jobId, status)
    case OtherJob(jobId) => Persist(s, jobId, "submitted").(ids := s.ids + {jobId})
    case Restart =>
      s.(jobs := map j | j in s.stored && !TerminalJob(s.stored[j]) :: s.stored[j],
         tasks := map[], locks := map[],
         abandoned := s.abandoned + set t | t in s.tasks && s.tasks[t].phase.Emitting? :: s.tasks[t].key)
  }

  // ---------------------------------------------------------------- the invariant

  /** A key's job is being created right now. */
  ghost predicate InFlight(s: State, key: string) {
    key in s.locks && s.locks[key] in s.tasks && s.tasks[s.locks[key]].key == key
    && s.tasks[s.locks[key]].phase.Emitting?
  }

  /** Whoever is past the lock holds it, so at most one submission per key is. */
  ghost predicate LocksHeld(s: State) {
    forall t :: t in s.tasks && Holding(s.tasks[t].phase) ==>
      s.tasks[t].key in s.locks && s.locks[s.tasks[t].key] == t
  }

  ghost predicate IdsKnown(s: State) {
    && (forall j :: j in s.jobs ==> j in s.ids)
    && (forall j :: j in s.stored ==> j in s.ids)
    && (forall k :: k in s.sources ==> s.sources[k].jobId in s.ids)
    && (s.persistent ==> forall j :: j in s.jobs ==> j in s.stored)
    && (!s.persistent ==> s.stored == map[])
  }

  /** Reservations of different keys are for different jobs. */
  ghost predicate Injective(s: State) {
    forall k, l :: k in s.sources && l in s.sources && s.sources[k].jobId == s.sources[l].jobId ==> k == l
  }

  /** A job once created is the one its key maps to, and can be loaded. */
  ghost predicate CreatedMapped(s: State) {
    forall k, j :: (k, j) in s.created ==>
      k in s.sources && s.sources[k].jobId == j && Loadable(s, j) && k !in s.abandoned && !InFlight(s, k)
  }

  /** What each suspended submission knows. */
  ghost predicate TaskKnows(s: State, t: nat)
    requires t in s.tasks
  {
    var key, intent := s.tasks[t].key, s.tasks[t].intent;
    match s.tasks[t].phase
    case Waiting => true
    case Emitting(j) =>
      key in s.sources && s.sources[key].jobId == j && s.sources[key].intentHash == intent && !Loadable(s, j)
      && key !in s.abandoned
    case Polling(j, _) => key in s.abandoned && key in s.sources && s.sources[key].jobId == j
    case Diverging(j) => key in s.abandoned && key in s.sources && s.sources[key].jobId == j
    case Conflicting(j) => key in s.sources && s.sources[key].jobId == j && s.sources[key].intentHash != intent
    case Done(Returned(j)) => (key, j) in s.created && key in s.sources && s.sources[key].intentHash == intent
    case Done(QueueFull(j)) => (key, j) in s.created
    case Done(PendingError(j)) => key in s.abandoned
    case Done(_) => true
  }

  ghost predicate TasksKnow(s: State) {
    forall t :: t in s.tasks ==> TaskKnows(s, t)
  }

  /** Every reservation has its job, or an owner at work on it, or lost its owner. */
  ghost predicate Accounted(s: State) {
    && (forall k :: k in s.sources ==>
          (k, s.sources[k].jobId) in s.created || InFlight(s, k) || k in s.abandoned)
    && (forall k :: k in s.abandoned ==> k in s.sources && !Loadable(s, s.sources[k].jobId))
  }

  ghost predicate Inv(s: State) {
    LocksHeld(s) && IdsKnown(s) && Injective(s) && CreatedMapped(s) && TasksKnow(s) && Accounted(s)
  }

  lemma InitialInv(persistent: bool)
    ensures Inv(Initial(persistent))
  {
  }

  // ---------------------------------------------------------------- every step keeps it

  lemma SubmitKeeps(s: State, t: nat, key: string, intent: string)
    requires Inv(s) && t !in s.tasks
    ensures Inv(Next(s, Submit(t, key, intent)))
  {
    var s' := Next(s, Submit(t, key, intent));
    forall k ensures InFlight(s', k) <==> InFlight(s, k) {
    }
    assert TasksKnow(s') by {
      forall u | u in s'.tasks ensures TaskKnows(s', u) {
        if u != t { assert TaskKnows(s, u); }
      }
    }
  }

  /** Same jobs, mapping and history, same keys in flight: what does not concern the tasks holds. */
  lemma SameData(s: State, s': State)
    requires IdsKnown(s) && Injective(s) && CreatedMapped(s) && Accounted(s)
    requires s'.persistent == s.persistent && s'.jobs == s.jobs && s'.stored == s.stored && s'.sources == s.sources
    requires s.ids <= s'.ids && s'.created == s.created && s'.abandoned == s.abandoned
    requires forall k :: InFlight(s', k) <==> InFlight(s, k)
    ensures IdsKnown(s') && Injective(s') && CreatedMapped(s') && Accounted(s')
  {
    hide InFlight;
    forall j ensures Loadable(s', j) == Loadable(s, j) {
    }
  }

  /** A task's knowledge depends on the data only. */
  lemma SameKnowledge(s: State, s': State, t: nat)
    requires t in s.tasks && t in s'.tasks && s'.tasks[t] == s.tasks[t]
    requires s'.jobs == s.jobs && s'.stored == s.stored && s'.sources == s.sources
    requires s'.created == s.created && s'.abandoned == s.abandoned
    ensures TaskKnows(s', t) == TaskKnows(s, t)
  {
    forall j ensures Loadable(s', j) == Loadable(s, j) {
    }
  }

  /** One task moves on without touching the data. */
  lemma TaskMoves(s: State, s': State, t: nat)
    requires Inv(s) && t in s'.tasks && s'.tasks == s.tasks[t := s'.tasks[t]] && LocksHeld(s') && TaskKnows(s', t)
    requires s'.persistent == s.persistent && s'.jobs == s.jobs && s'.stored == s.stored && s'.sources == s.sources
    requires s.ids <= s'.ids && s'.created == s.created && s'.abandoned == s.abandoned
    requires forall k :: InFlight(s', k) <==> InFlight(s, k)
    ensures Inv(s')
  {
    hide InFlight, TaskKnows, LocksHeld, IdsKnown, Injective, CreatedMapped, Accounted;
    SameData(s, s');
    forall u | u in s'.tasks ensures TaskKnows(s', u) {
      if u != t {
        assert TaskKnows(s, u);
        SameKnowledge(s, s', u);
      }
    }
  }

  lemma EnterNewKeeps(s: State, t: nat, candidate: string, now: int)
    requires Inv(s) && Enabled(s, Enter(t, candidate, now)) && s.tasks[t].key !in s.sources
    ensures Inv(EnterLocked(s, t, candidate, now))
  {
    var s' := EnterLocked(s, t, candidate, now);
    var key := s.tasks[t].key;
    assert s'.sources == s.sources[key := SourceRecord(candidate, s.tasks[t].intent, now)];
    forall k | k != key ensures InFlight(s', k) <==> InFlight(s, k) {
    }
    assert !InFlight(s, key) && InFlight(s', key);
    forall j ensures Loadable(s', j) == Loadable(s, j) {
    }
    assert TasksKnow(s') by {
      forall u | u in s'.tasks ensures TaskKnows(s', u) {
        if u != t { assert TaskKnows(s, u); }
      }
    }
  }

  /** The lock of a known key is taken and the submission suspends. */
  lemma SuspendKeeps(s: State, s': State, t: nat)
    requires Inv(s) && t in s.tasks && s.tasks[t].phase.Waiting? && s.tasks[t].key !in s.locks
    requires t in s'.tasks && (s'.tasks[t].phase.Polling? || s'.tasks[t].phase.Conflicting?)
    requires s' == s.(ids := s'.ids, locks := s.locks[s.tasks[t].key := t],
                      tasks := s.tasks[t := s.tasks[t].(phase := s'.tasks[t].phase)])
    requires s.ids <= s'.ids && TaskKnows(s', t)
    ensures Inv(s')
  {
    hide TaskKnows;
    forall k ensures InFlight(s', k) <==> InFlight(s, k) {
    }
    assert LocksHeld(s');
    TaskMoves(s, s', t);
  }

  lemma EnterKnownKeeps(s: State, t: nat, candidate: string, now: int)
    requires Inv(s) && Enabled(s, Enter(t, candidate, now)) && s.tasks[t].key in s.sources
    ensures Inv(EnterLocked(s, t, candidate, now))
  {
    var s' := EnterLocked(s, t, candidate, now);
    var key := s.tasks[t].key;
    var j := s.sources[key].jobId;
    assert !InFlight(s, key);
    assert s'.sources == s.sources;
    if s.sources[key].intentHash == s.tasks[t].intent && Loadable(s, j) {
      DedupKeeps(s, t, candidate, j);
    } else {
      assert TaskKnows(s', t);
      SuspendKeeps(s, s', t);
    }
  }

  /** An equivalent replay of a loadable job ends at once. */
  lemma DedupKeeps(s: State, t: nat, candidate: string, j: string)
    requires Inv(s) && t in s.tasks && s.tasks[t].phase.Waiting?
    requires s.tasks[t].key in s.sources && s.sources[s.tasks[t].key].jobId == j && Loadable(s, j)
    requires s.sources[s.tasks[t].key].intentHash == s.tasks[t].intent && !InFlight(s, s.tasks[t].key)
    ensures Inv(s.(ids := s.ids + {candidate}, tasks := s.tasks[t := s.tasks[t].(phase := Done(Returned(j)))]))
  {
    var s' := s.(ids := s.ids + {candidate}, tasks := s.tasks[t := s.tasks[t].(phase := Done(Returned(j)))]);
    forall k ensures InFlight(s', k) <==> InFlight(s, k) {
    }
    assert TaskKnows(s', t);
    assert LocksHeld(s');
    TaskMoves(s, s', t);
  }

  lemma EnterKeeps(s: State, t: nat, candidate: string, now: int)
    requires Inv(s) && Enabled(s, Enter(t, candidate, now))
    ensures Inv(EnterLocked(s, t, candidate, now))
  {
    hide Inv, EnterLocked;
    if s.tasks[t].key in s.sources {
      EnterKnownKeeps(s, t, candidate, now);
    } else {
      EnterNewKeeps(s, t, candidate, now);
    }
  }

  lemma PollKeeps(s: State, t: nat)
    requires Inv(s) && Enabled(s, Poll(t))
    ensures Inv(Next(s, Poll(t)))
  {
    hide Inv, TaskKnows, Loadable;
    var p := s.tasks[t].phase;
    AbandonedNeverLoads(s, t);
    StillSuspended(s, t, if p.left <= 1 then Diverging(p.jobId) else Polling(p.jobId, p.left - 1));
  }

  /** What a submission polls for has lost its owner, so polling never succeeds. */
  lemma AbandonedNeverLoads(s: State, t: nat)
    requires Inv(s) && t in s.tasks && s.tasks[t].phase.Polling?
    ensures !Loadable(s, s.tasks[t].phase.jobId)
  {
    assert TaskKnows(s, t);
  }

  lemma StillSuspended(s: State, t: nat, phase: Phase)
    requires Inv(s) && t in s.tasks && s.tasks[t].phase.Polling?
    requires (phase.Polling? || phase.Diverging?) && phase.jobId == s.tasks[t].phase.jobId
    ensures Inv(Move(s, t, phase))
  {
    var s' := Move(s, t, phase);
    assert TaskKnows(s, t);
    assert TaskKnows(s', t);
    hide TaskKnows;
    forall k ensures InFlight(s', k) <==> InFlight(s, k) {
    }
    assert LocksHeld(s');
    TaskMoves(s, s', t);
  }

  /** A submission that was not emitting ends. */
  lemma FinishKeeps(s: State, t: nat, result: Result)
    requires Inv(s) && t in s.tasks && !s.tasks[t].phase.Emitting?
    requires TaskKnows(Move(s, t, Done(result)), t)
    ensures Inv(Finish(s, t, result))
  {
    var s' := Finish(s, t, result);
    forall k ensures InFlight(s', k) <==> InFlight(s, k) {
    }
    SameKnowledge(Move(s, t, Done(result)), s', t);
    assert LocksHeld(s');
    TaskMoves(s, s', t);
  }

  lemma EmittedKeeps(s: State, t: nat, queueFull: bool)
    requires Inv(s) && Enabled(s, Emitted(t, true, queueFull))
    ensures Inv(AfterEmit(s, t, true, queueFull))
  {
    var s' := AfterEmit(s, t, true, queueFull);
    var key, j := s.tasks[t].key, s.tasks[t].phase.jobId;
    assert TaskKnows(s, t);
    assert InFlight(s, key);
    forall k | k != key ensures InFlight(s', k) <==> InFlight(s, k) {
    }
    assert !InFlight(s', key);
    forall i ensures Loadable(s', i) <==> Loadable(s, i) || i == j {
    }
    forall k | k in s.abandoned ensures s.sources[k].jobId != j {
    }
    assert TasksKnow(s') by {
      forall u | u in s'.tasks ensures TaskKnows(s', u) {
        assert TaskKnows(s, u);
      }
    }
  }

  lemma EmitFailedKeeps(s: State, t: nat, queueFull: bool)
    requires Inv(s) && Enabled(s, Emitted(t, false, queueFull))
    ensures Inv(AfterEmit(s, t, false, queueFull))
  {
    hide AfterEmit, IdsKnown, Injective, CreatedMapped, Accounted;
    var s' := AfterEmit(s, t, false, queueFull);
    var key := s.tasks[t].key;
    assert TaskKnows(s, t);
    EmitFailedTasks(s, t, queueFull);
    EmitFailedState(s, t, queueFull);
    hide TasksKnow, TaskKnows;
    assert InFlight(s, key);
    forall k | k != key ensures InFlight(s', k) <==> InFlight(s, k) {
    }
    hide InFlight;
    ReservationGone(s, s', key);
  }

  lemma ReservationGone(s: State, s': State, key: string)
    requires IdsKnown(s) && Injective(s) && CreatedMapped(s) && Accounted(s) && InFlight(s, key)
    requires key in s.sources && key !in s.abandoned
    requires s' == s.(sources := s.sources - {key}, locks := s'.locks, tasks := s'.tasks)
    requires forall k :: k != key ==> (InFlight(s', k) <==> InFlight(s, k))
    ensures IdsKnown(s') && Injective(s') && CreatedMapped(s') && Accounted(s')
  {
    hide InFlight;
    forall j ensures (key, j) !in s.created {
    }
  }

  /** Only the reservation, its lock and the owner's phase change. */
  lemma EmitFailedState(s: State, t: nat, queueFull: bool)
    requires Inv(s) && Enabled(s, Emitted(t, false, queueFull))
    ensures var key := s.tasks[t].key;
      AfterEmit(s, t, false, queueFull) ==
        s.(sources := s.sources - {key}, locks := s.locks - {key}, tasks := s.tasks[t := s.tasks[t].(phase := Done(EmitFailed))])
  {
    assert TaskKnows(s, t);
    hide IdsKnown, Injective, CreatedMapped, Accounted, InFlight;
  }

  lemma EmitFailedTasks(s: State, t: nat, queueFull: bool)
    requires Inv(s) && Enabled(s, Emitted(t, false, queueFull))
    ensures TasksKnow(AfterEmit(s, t, false, queueFull))
  {
    var key := s.tasks[t].key;
    assert TaskKnows(s, t);
    assert InFlight(s, key);
    assert forall j :: (key, j) !in s.created;
    EmitFailedState(s, t, queueFull);
    hide AfterEmit, IdsKnown, Injective, CreatedMapped, Accounted, InFlight;
    OwnerGone(s, AfterEmit(s, t, false, queueFull), t, key);
  }

  /** The other submissions of the key still wait for the lock, or have ended. */
  lemma OwnerGone(s: State, s': State, t: nat, key: string)
    requires TasksKnow(s) && LocksHeld(s) && t in s.tasks && s.tasks[t].key == key && Holding(s.tasks[t].phase)
    requires key !in s.abandoned && forall j :: (key, j) !in s.created
    requires s' == s.(sources := s.sources - {key}, locks := s.locks - {key},
                      tasks := s.tasks[t := s.tasks[t].(phase := Done(EmitFailed))])
    ensures TasksKnow(s')
  {
    forall u | u in s'.tasks ensures TaskKnows(s', u) {
      assert TaskKnows(s, u);
      assert u != t && Holding(s.tasks[u].phase) ==> s.tasks[u].key != key;
    }
  }

  lemma CancelKeeps(s: State, t: nat)
    requires Inv(s) && Enabled(s, Cancel(t))
    ensures Inv(Next(s, Cancel(t)))
  {
    if s.tasks[t].phase.Emitting? {
      CutOffKeeps(s, t);
    } else {
      hide Inv;
      FinishKeeps(s, t, Cancelled);
    }
  }

  /** A submission cut off while emitting leaves its key abandoned. */
  lemma CutOffKeeps(s: State, t: nat)
    requires Inv(s) && t in s.tasks && s.tasks[t].phase.Emitting?
    ensures Inv(Next(s, Cancel(t)))
  {
    var s' := Next(s, Cancel(t));
    var key := s.tasks[t].key;
    CutOffTasks(s, t);
    assert key in s.sources && !Loadable(s, s.sources[key].jobId) by {
      assert TaskKnows(s, t);
    }
    hide TaskKnows, TasksKnow;
    assert InFlight(s, key) && !InFlight(s', key);
    assert LocksHeld(s');
    forall k | k != key ensures InFlight(s', k) <==> InFlight(s, k) {
    }
    hide InFlight, LocksHeld;
  }

  lemma CutOffTasks(s: State, t: nat)
    requires Inv(s) && t in s.tasks && s.tasks[t].phase.Emitting?
    ensures TasksKnow(Next(s, Cancel(t)))
  {
    hide InFlight, IdsKnown, Injective, CreatedMapped, Accounted;
    var s' := Next(s, Cancel(t));
    forall u | u in s'.tasks ensures TaskKnows(s', u) {
      assert TaskKnows(s, u);
    }
  }

  /** Job rows change or appear for ids that no reservation holds, or that already exist. */
  lemma JobRowsKeep(s: State, jobId: string, status: string, s': State)
    requires Inv(s) && (jobId in s.jobs || jobId !in s.ids)
    requires s' == Persist(s, jobId, status).(ids := s.ids + {jobId})
    ensures Inv(s')
  {
    forall k ensures InFlight(s', k) <==> InFlight(s, k) {
    }
    forall j ensures Loadable(s', j) <==> Loadable(s, j) || j == jobId {
    }
    assert TasksKnow(s') by {
      forall u | u in s'.tasks ensures TaskKnows(s', u) {
        assert TaskKnows(s, u);
      }
    }
  }

  lemma RestartKeeps(s: State)
    requires Inv(s) && s.persistent
    ensures Inv(Next(s, Restart))
  {
    var s' := Next(s, Restart);
    forall j ensures Loadable(s', j) == Loadable(s, j) {
    }
    forall k | InFlight(s, k) ensures k in s'.abandoned {
      assert s.locks[k] in s.tasks;
    }
    forall k | k in s'.abandoned ensures k in s'.sources && !Loadable(s', s'.sources[k].jobId) {
      if k !in s.abandoned {
        var t :| t in s.tasks && s.tasks[t].phase.Emitting? && s.tasks[t].key == k;
        assert TaskKnows(s, t);
      }
    }
    forall k, j | (k, j) in s.created ensures k !in s'.abandoned {
      assert Loadable(s', s'.sources[k].jobId);
    }
  }

  lemma StepKeeps(s: State, step: Step)
    requires Inv(s) && Enabled(s, step)
    ensures Inv(Next(s, step))
  {
    hide Inv, TasksKnow, InFlight;
    match step
    case Submit(t, key, intent) => SubmitKeeps(s, t, key, intent);
    case Enter(t, candidate, now) => EnterKeeps(s, t, candidate, now);
    case Poll(t) => PollKeeps(s, t);
    case Diverged(t) => DivergedKeeps(s, t);
    case ConflictSent(t, ok) => ConflictKeeps(s, t, ok);
    case Emitted(t, ok, queueFull) => if ok { EmittedKeeps(s, t, queueFull); } else { EmitFailedKeeps(s, t, queueFull); }
    case Cancel(t) => CancelKeeps(s, t);
    case Pipeline(jobId, status) => PipelineKeeps(s, jobId, status);
    case OtherJob(jobId) => JobRowsKeep(s, jobId, "submitted", Next(s, step));
    case Restart => RestartKeeps(s);
  }

  lemma DivergedKeeps(s: State, t: nat)
    requires Inv(s) && Enabled(s, Diverged(t))
    ensures Inv(Next(s, Diverged(t)))
  {
    assert TaskKnows(s, t);
    FinishKeeps(s, t, PendingError(s.tasks[t].phase.jobId));
  }

  lemma ConflictKeeps(s: State, t: nat, ok: bool)
    requires Inv(s) && Enabled(s, ConflictSent(t, ok))
    ensures Inv(Next(s, ConflictSent(t, ok)))
  {
    FinishKeeps(s, t, if ok then ConflictError(s.tasks[t].phase.jobId) else EmitFailed);
  }

  lemma PipelineKeeps(s: State, jobId: string, status: string)
    requires Inv(s) && jobId in s.jobs
    ensures Inv(Next(s, Pipeline(jobId, status)))
  {
    assert s.ids + {jobId} == s.ids;
    JobRowsKeep(s, jobId, status, Next(s, Pipeline(jobId, status)));
  }

  // ---------------------------------------------------------------- runs

  ghost predicate Runs(s: State, steps: seq<Step>)
    decreases |steps|
  {
    |steps| == 0 || (Enabled(s, steps[0]) && Runs(Next(s, steps[0]), steps[1..]))
  }

  ghost function After(s: State, steps: seq<Step>): State
    requires Runs(s, steps)
    decreases |steps|
  {
    if |steps| == 0 then s else After(Next(s, steps[0]), steps[1..])
  }

  lemma {:induction false} RunKeeps(s: State, steps: seq<Step>)
    requires Inv(s) && Runs(s, steps)
    ensures Inv(After(s, steps))
    ensures s.created <= After(s, steps).created
    decreases |steps|
  {
    hide Inv, Enabled, Next;
    if |steps| > 0 {
      StepKeeps(s, steps[0]);
      HistoryGrows(s, steps[0]);
      RunKeeps(Next(s, steps[0]), steps[1..]);
    }
  }

  lemma HistoryGrows(s: State, step: Step)
    requires Enabled(s, step)
    ensures s.created <= Next(s, step).created && s.abandoned <= Next(s, step).abandoned
  {
    hide EnterLocked, AfterEmit;
    match step
    case Enter(t, candidate, now) => EnterHistory(s, t, candidate, now);
    case Emitted(t, ok, queueFull) => EmitHistory(s, t, ok, queueFull);
    case _ =>
  }

  lemma EnterHistory(s: State, t: nat, candidate: string, now: int)
    requires t in s.tasks
    ensures var s' := EnterLocked(s, t, candidate, now);
      s'.created == s.created && s'.abandoned == s.abandoned && s'.jobs == s.jobs && s'.stored == s.stored
  {
  }

  lemma EmitHistory(s: State, t: nat, ok: bool, queueFull: bool)
    requires t in s.tasks && s.tasks[t].phase.Emitting?
    ensures var s' := AfterEmit(s, t, ok, queueFull);
      s.created <= s'.created && s'.abandoned == s.abandoned
  {
  }

  /** In every interleaving, with restarts when there is a database: a source event gets at most
      one job; a submission that returns a job returns that one, and only for the intent it was
      created with; a submission fails as pending only when an earlier one for the same key was
      cut off while emitting, and such a key never gets a job. */
  lemma AtMostOneJob(persistent: bool, steps: seq<Step>)
    requires Runs(Initial(persistent), steps)
    ensures var s := After(Initial(persistent), steps);
      && (forall k, i, j :: (k, i) in s.created && (k, j) in s.created ==> i == j)
      && (forall k, l, j :: (k, j) in s.created && (l, j) in s.created ==> k == l)
      && (forall t :: t in s.tasks ==>
            var task := s.tasks[t];
            match task.phase
            case Done(Returned(j)) =>
              (task.key, j) in s.created && task.key in s.sources && s.sources[task.key].intentHash == task.intent
            case Done(QueueFull(j)) => (task.key, j) in s.created
            case Done(PendingError(j)) => task.key in s.abandoned
            case _ => true)
      && (forall k, j :: k in s.abandoned ==> (k, j) !in s.created)
  {
    InitialInv(persistent);
    RunKeeps(Initial(persistent), steps);
    var s := After(Initial(persistent), steps);
    forall t | t in s.tasks ensures TaskKnows(s, t) {
    }
  }

  /** What a submission may leave behind. */
  function Data(s: State): (map<string, string>, map<string, string>, map<string, SourceRecord>, set<(string, string)>) {
    (s.jobs, s.stored, s.sources, s.created)
  }

  predicate Of(step: Step, t: nat) {
    match step
    case Enter(u, _, _) => u == t
    case Poll(u) => u == t
    case Diverged(u) => u == t
    case ConflictSent(u, _) => u == t
    case Emitted(u, _, _) => u == t
    case Cancel(u) => u == t
    case _ => false
  }

  /** No step of this submission in the run changes anything but its own progress and its lock. */
  ghost predicate LeavesDataAlone(s: State, t: nat, steps: seq<Step>)
    requires Runs(s, steps)
    decreases |steps|
  {
    |steps| > 0 ==>
      (Of(steps[0], t) ==> Data(Next(s, steps[0])) == Data(s)) && LeavesDataAlone(Next(s, steps[0]), t, steps[1..])
  }

  /** Its answers: the conflict with the mapped job, a failed emit, or none when cut off. */
  predicate RefusedFor(s: State, t: nat, jobId: string) {
    t in s.tasks ==>
      match s.tasks[t].phase
      case Conflicting(j) => j == jobId
      case Done(ConflictError(j)) => j == jobId
      case Done(EmitFailed) => true
      case Done(Cancelled) => true
      case _ => false
  }

  /** A replay with another intent, whatever other calls do in between, changes no job, no mapping
      and no history, and is refused with the job that the key maps to. */
  lemma ChangedIntentChangesNothing(s: State, t: nat, candidate: string, now: int, steps: seq<Step>)
    requires Inv(s) && Enabled(s, Enter(t, candidate, now))
    requires s.tasks[t].key in s.sources && s.sources[s.tasks[t].key].intentHash != s.tasks[t].intent
    requires Runs(s, [Enter(t, candidate, now)] + steps)
    requires forall i :: 0 <= i < |steps| ==> !(steps[i].Submit? && steps[i].t == t)
    ensures LeavesDataAlone(s, t, [Enter(t, candidate, now)] + steps)
    ensures RefusedFor(After(s, [Enter(t, candidate, now)] + steps), t, s.sources[s.tasks[t].key].jobId)
  {
    var all := [Enter(t, candidate, now)] + steps;
    assert all[0] == Enter(t, candidate, now) && all[1..] == steps;
    RefusedStays(Next(s, all[0]), t, s.sources[s.tasks[t].key].jobId, steps);
  }

  lemma {:induction false} RefusedStays(s: State, t: nat, jobId: string, steps: seq<Step>)
    requires Runs(s, steps) && RefusedFor(s, t, jobId)
    requires forall i :: 0 <= i < |steps| ==> !(steps[i].Submit? && steps[i].t == t)
    ensures LeavesDataAlone(s, t, steps) && RefusedFor(After(s, steps), t, jobId)
    decreases |steps|
  {
    hide Enabled, Next;
    if |steps| > 0 {
      RefusedStep(s, t, jobId, steps[0]);
      RefusedStays(Next(s, steps[0]), t, jobId, steps[1..]);
    }
  }

  lemma RefusedStep(s: State, t: nat, jobId: string, step: Step)
    requires Enabled(s, step) && RefusedFor(s, t, jobId) && !(step.Submit? && step.t == t)
    ensures RefusedFor(Next(s, step), t, jobId)
    ensures Of(step, t) ==> Data(Next(s, step)) == Data(s)
  {
    hide Next, Enabled;
    if t !in s.tasks {
      StaysAway(s, t, step);
    } else if Of(step, t) {
      RefusedOwnStep(s, t, jobId, step);
    } else {
      RefusedOtherStep(s, t, step);
    }
  }

  lemma StaysAway(s: State, t: nat, step: Step)
    requires Enabled(s, step) && t !in s.tasks && !(step.Submit? && step.t == t)
    ensures t !in Next(s, step).tasks && !Of(step, t)
  {
    hide EnterLocked, AfterEmit;
    match step
    case Enter(u, candidate, now) => EnterTask(s, u, candidate, now);
    case Emitted(u, ok, queueFull) => EmitTask(s, u, ok, queueFull);
    case _ =>
  }

  lemma RefusedOwnStep(s: State, t: nat, jobId: string, step: Step)
    requires Enabled(s, step) && t in s.tasks && RefusedFor(s, t, jobId) && Of(step, t)
    ensures RefusedFor(Next(s, step), t, jobId) && Data(Next(s, step)) == Data(s)
  {
    hide EnterLocked, AfterEmit;
  }

  lemma RefusedOtherStep(s: State, t: nat, step: Step)
    requires Enabled(s, step) && t in s.tasks && !Of(step, t)
    ensures t in Next(s, step).tasks ==> Next(s, step).tasks[t] == s.tasks[t]
  {
    hide EnterLocked, AfterEmit;
    match step
    case Enter(u, candidate, now) => EnterTask(s, u, candidate, now);
    case Emitted(u, ok, queueFull) => EmitTask(s, u, ok, queueFull);
    case _ =>
  }

  lemma EnterTask(s: State, t: nat, candidate: string, now: int)
    requires t in s.tasks
    ensures var s' := EnterLocked(s, t, candidate, now); t in s'.tasks && s'.tasks == s.tasks[t := s'.tasks[t]]
  {
  }

  lemma EmitTask(s: State, t: nat, ok: bool, queueFull: bool)
    requires t in s.tasks && s.tasks[t].phase.Emitting?
    ensures var s' := AfterEmit(s, t, ok, queueFull); t in s'.tasks && s'.tasks == s.tasks[t := s'.tasks[t]]
  {
  }

  /** A failed emit undoes its reservation completely: the next submission of the key finds it
      fresh; and it happens only when no job of that key was ever stored. */
  lemma FailedEmitReleases(s: State, t: nat, queueFull: bool)
    requires Inv(s) && Enabled(s, Emitted(t, false, queueFull))
    ensures var key := s.tasks[t].key;
      var s' := Next(s, Emitted(t, false, queueFull));
      && key !in s'.sources && key !in s'.locks
      && s'.sources == s.sources - {key} && s'.jobs == s.jobs && s'.stored == s.stored
      && forall j :: (key, j) !in s.created
  {
    assert TaskKnows(s, t);
    assert InFlight(s, s.tasks[t].key);
  }

  /** An equivalent replay of a key whose job exists returns that job without suspending. */
  lemma EquivalentReplayReturns(s: State, t: nat, candidate: string, now: int, jobId: string)
    requires Inv(s) && Enabled(s, Enter(t, candidate, now))
    requires (s.tasks[t].key, jobId) in s.created && s.sources[s.tasks[t].key].intentHash == s.tasks[t].intent
    ensures var s' := Next(s, Enter(t, candidate, now));
      && s'.tasks[t].phase == Done(Returned(jobId))
      && s'.jobs == s.jobs && s'.stored == s.stored && s'.sources == s.sources
      && s'.created == s.created && s'.locks == s.locks
  {
  }
}
